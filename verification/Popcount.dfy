/**
 `redisPopcount` of `bitops.c`: the bits of a string are counted four 32-bit words at a
 time, by adding up ever wider fields of each word in parallel, and with a table at the end.
 */
module Popcount {
  import opened Common
  import opened Words
  import opened Bitops

  // --- The definition ---

  /** The number of ones among the binary digits. */
  function Ones(v: nat): nat {
    if v == 0 then 0 else v % 2 + Ones(v / 2)
  }

  function TotalOnes(s: seq<byte>): nat {
    if s == [] then 0 else Ones(s[0]) + TotalOnes(s[1..])
  }

  lemma {:induction false} OnesJoin(k: nat, a: nat, x: nat)
    requires a < Pow2(k)
    ensures Ones(Up(k, x) + a) == Ones(x) + Ones(a)
    decreases k
  {
    if k > 0 {
      OnesJoin(k - 1, a / 2, x);
      assert (Up(k, x) + a) / 2 == Up(k - 1, x) + a / 2;
    }
  }

  lemma {:induction false} OnesOfWord(b: seq<byte>)
    ensures Ones(Load(b)) == TotalOnes(b)
  {
    hide Ones, Up, Pow2;
    if b == [] {
      SmallOnes();
    } else {
      OnesOfWord(b[1..]);
      ByteSize();
      OnesJoin(8, b[0], Load(b[1..]));
    }
  }

  lemma {:induction false} TotalAppend(a: seq<byte>, b: seq<byte>)
    ensures TotalOnes(a + b) == TotalOnes(a) + TotalOnes(b)
  {
    hide Ones;
    if a == [] {
      assert a + b == b;
    } else {
      assert (a + b)[0] == a[0] && (a + b)[1..] == a[1..] + b;
      TotalAppend(a[1..], b);
    }
  }

  // --- Fields of two, four and eight digits ---

  /** The mask with the low half of each of `n` fields set: 0x55... */
  function Mask2(n: nat): nat {
    if n == 0 then 0 else 1 + 4 * Mask2(n - 1)
  }

  /** 0x33... */
  function Mask4(n: nat): nat {
    if n == 0 then 0 else 3 + 16 * Mask4(n - 1)
  }

  /** 0x0F0F... */
  function Mask8(n: nat): nat {
    if n == 0 then 0 else 15 + 256 * Mask8(n - 1)
  }

  function Sum2(n: nat, v: nat): nat
    decreases n
  {
    if n == 0 then 0 else v % 4 + Sum2(n - 1, v / 4)
  }

  function Sum4(n: nat, v: nat): nat
    decreases n
  {
    if n == 0 then 0 else v % 16 + Sum4(n - 1, v / 16)
  }

  /** `n` two-digit fields that hold the number of ones in them. */
  function Pairs(n: nat, x: nat): nat
    decreases n
  {
    if n == 0 then 0 else x % 2 + x / 2 % 2 + 4 * Pairs(n - 1, x / 4)
  }

  /** `n` four-digit fields that hold the sums of their halves. */
  function Nibbles(n: nat, y: nat): nat
    decreases n
  {
    if n == 0 then 0 else y % 4 + y / 4 % 4 + 16 * Nibbles(n - 1, y / 16)
  }

  /** `n` eight-digit fields that hold the sums of their halves. */
  function Octets(n: nat, z: nat): nat
    decreases n
  {
    if n == 0 then 0 else z % 16 + z / 16 % 16 + 256 * Octets(n - 1, z / 256)
  }

  lemma AndEven(v: nat, m: nat)
    ensures And(v, 2 * m) == 2 * And(v / 2, m) && And(v, 1 + 2 * m) == v % 2 + 2 * And(v / 2, m)
  {
    AndStep(v, 2 * m);
    AndStep(v, 1 + 2 * m);
    hide And;
    assert (1 + 2 * m) / 2 == m && (2 * m) / 2 == m;
  }

  lemma AndTwoDigits(v: nat, m: nat)
    ensures And(v, 1 + 4 * m) == v % 2 + 4 * And(v / 4, m)
    ensures And(v, 3 + 4 * m) == v % 4 + 4 * And(v / 4, m)
    ensures And(v, 4 * m) == 4 * And(v / 4, m)
  {
    hide And;
    TwoDigits(v);
    AndEven(v, 2 * m);
    AndEven(v, 1 + 2 * m);
    AndEven(v / 2, m);
  }

  lemma Pow2Four(n: nat)
    requires n > 0
    ensures Pow2(2 * n) == 4 * Pow2(2 * (n - 1))
  {
    Pow2Two(2 * (n - 1));
    assert 2 * n == 2 * (n - 1) + 2;
  }

  lemma Pow2Two(k: nat)
    ensures Pow2(k + 2) == 4 * Pow2(k)
  {
    assert Pow2(k + 2) == 2 * Pow2(k + 1);
  }

  lemma TwoDigits(x: nat)
    ensures x == x % 2 + 2 * (x / 2 % 2) + 4 * (x / 4) && x / 2 / 4 == x / 4 / 2 && x / 2 / 2 == x / 4
  {
  }

  /** First step: subtracting the high digits of the pairs leaves the number of ones in each. */
  lemma {:induction false} PairStep(n: nat, x: nat)
    requires x < Pow2(2 * n)
    ensures And(x / 2, Mask2(n)) <= x && x - And(x / 2, Mask2(n)) == Pairs(n, x)
    decreases n
  {
    hide And, Pow2;
    if n == 0 {
      AndNothing(x / 2);
      Pow2Zero();
    } else {
      Pow2Four(n);
      TwoDigits(x);
      AndTwoDigits(x / 2, Mask2(n - 1));
      PairStep(n - 1, x / 4);
    }
  }

  lemma Pow2Zero()
    ensures Pow2(0) == 1
  {
  }

  lemma {:induction false} PairsSum(n: nat, x: nat)
    requires x < Pow2(2 * n)
    ensures Sum2(n, Pairs(n, x)) == Ones(x)
    decreases n
  {
    hide Pow2;
    if n == 0 {
      Pow2Zero();
    } else {
      Pow2Four(n);
      PairsSum(n - 1, x / 4);
      OnesTwo(x);
      FieldOf4(x % 2 + x / 2 % 2, Pairs(n - 1, x / 4));
    }
  }

  lemma OnesTwo(x: nat)
    ensures Ones(x) == x % 2 + x / 2 % 2 + Ones(x / 4)
  {
    hide Ones;
    OnesStep(x);
    OnesStep(x / 2);
    TwoDigits(x);
  }

  lemma OnesStep(x: nat)
    ensures Ones(x) == x % 2 + Ones(x / 2)
  {
  }

  lemma FieldOf4(a: nat, q: nat)
    requires a < 4
    ensures (a + 4 * q) % 4 == a && (a + 4 * q) / 4 == q
  {
  }

  lemma FieldOf16(a: nat, q: nat)
    requires a < 16
    ensures (a + 16 * q) % 16 == a && (a + 16 * q) / 16 == q
  {
  }

  lemma FieldOf256(a: nat, q: nat)
    requires a < 256
    ensures (a + 256 * q) % 256 == a && (a + 256 * q) / 256 == q && (a + 256 * q) % 16 == a % 16
  {
    FieldOf16(a % 16, a / 16 + 16 * q);
  }

  lemma AndFourDigits(v: nat, m: nat)
    ensures And(v, 3 + 16 * m) == v % 4 + 16 * And(v / 16, m)
    ensures And(v, 15 + 16 * m) == v % 16 + 16 * And(v / 16, m)
    ensures And(v, 16 * m) == 16 * And(v / 16, m)
  {
    hide And;
    AndTwoDigits(v, 4 * m);
    AndTwoDigits(v, 3 + 4 * m);
    AndTwoDigits(v / 4, m);
    assert v / 4 / 4 == v / 16;
  }

  /** Second step: the two halves of each nibble are added. */
  lemma {:induction false} NibbleStep(n: nat, y: nat)
    ensures And(y, Mask4(n)) + And(y / 4, Mask4(n)) == Nibbles(n, y)
    decreases n
  {
    hide And;
    if n == 0 {
      AndNothing(y);
      AndNothing(y / 4);
    } else {
      AndFourDigits(y, Mask4(n - 1));
      AndFourDigits(y / 4, Mask4(n - 1));
      NibbleStep(n - 1, y / 16);
      assert y / 4 / 16 == y / 16 / 4;
    }
  }

  lemma AndNothing(v: nat)
    ensures And(v, 0) == 0
  {
  }

  lemma Sum2Two(n: nat, y: nat)
    ensures Sum2(n + 2, y) == y % 4 + y / 4 % 4 + Sum2(n, y / 16)
  {
    assert Sum2(n + 2, y) == y % 4 + Sum2(n + 1, y / 4);
    assert y / 4 / 4 == y / 16;
  }

  lemma {:induction false} NibblesSum(n: nat, y: nat)
    ensures Sum4(n, Nibbles(n, y)) == Sum2(2 * n, y)
    decreases n
  {
    if n > 0 {
      NibblesSum(n - 1, y / 16);
      FieldOf16(y % 4 + y / 4 % 4, Nibbles(n - 1, y / 16));
      Sum2Two(2 * (n - 1), y);
      hide Sum2;
      assert 2 * n == 2 * (n - 1) + 2;
    }
  }

  /** The nibbles are at most six, so that two of them can be added without a carry. */
  predicate SmallNibbles(n: nat, z: nat)
    decreases n
  {
    if n == 0 then z == 0 else z % 16 <= 6 && SmallNibbles(n - 1, z / 16)
  }

  lemma {:induction false} NibblesSmall(n: nat, y: nat)
    ensures SmallNibbles(n, Nibbles(n, y))
    decreases n
  {
    if n > 0 {
      NibblesSmall(n - 1, y / 16);
    }
  }

  /** Third step: the two nibbles of each byte are added. */
  lemma {:induction false} OctetStep(n: nat, z: nat)
    requires SmallNibbles(2 * n, z)
    ensures And(z + z / 16, Mask8(n)) == Octets(n, z)
    decreases n
  {
    hide And;
    if n == 0 {
      AndNothing(z + z / 16);
    } else {
      assert SmallNibbles(2 * n - 1, z / 16) && z / 16 / 16 == z / 256;
      assert SmallNibbles(2 * (n - 1), z / 256);
      assert z / 256 % 16 <= 6;
      OctetStep(n - 1, z / 256);
      var v := z + z / 16;
      OctetCarry(z);
      AndFourDigits(v, 16 * Mask8(n - 1));
      AndFourDigits(v / 16, Mask8(n - 1));
      assert v / 16 / 16 == v / 256;
    }
  }

  lemma OctetCarry(z: nat)
    requires z % 16 <= 6 && z / 16 % 16 <= 6 && z / 256 % 16 <= 6
    ensures var v := z + z / 16;
            v % 16 == z % 16 + z / 16 % 16 && v / 256 == z / 256 + z / 256 / 16
  {
    var a, b, c, d := z % 16, z / 16 % 16, z / 256 % 16, z / 256 / 16;
    FourFields(z);
    FieldOf256((a + b) + 16 * (b + c), c + 16 * d + d);
    FieldOf16(a + b, b + c);
  }

  lemma FourFields(z: nat)
    ensures var a, b, c, d := z % 16, z / 16 % 16, z / 256 % 16, z / 256 / 16;
            z == a + 16 * b + 256 * c + 4096 * d && z / 16 == b + 16 * c + 256 * d && z / 256 == c + 16 * d
  {
    assert z / 256 == z / 16 / 16;
  }

  function Sum8(n: nat, v: nat): nat
    decreases n
  {
    if n == 0 then 0 else v % 256 + Sum8(n - 1, v / 256)
  }

  /** The bytes are at most twelve. */
  predicate SmallOctets(n: nat, v: nat)
    decreases n
  {
    if n == 0 then v == 0 else v % 256 <= 12 && SmallOctets(n - 1, v / 256)
  }

  lemma Sum4Two(n: nat, z: nat)
    ensures Sum4(n + 2, z) == z % 16 + z / 16 % 16 + Sum4(n, z / 256)
  {
    assert Sum4(n + 2, z) == z % 16 + Sum4(n + 1, z / 16);
    assert z / 16 / 16 == z / 256;
  }

  lemma {:induction false} OctetsSum(n: nat, z: nat)
    requires SmallNibbles(2 * n, z)
    ensures Sum8(n, Octets(n, z)) == Sum4(2 * n, z) && SmallOctets(n, Octets(n, z))
    decreases n
  {
    if n > 0 {
      assert SmallNibbles(2 * n - 1, z / 16) && z / 16 / 16 == z / 256;
      assert SmallNibbles(2 * (n - 1), z / 256);
      OctetsSum(n - 1, z / 256);
      FieldOf256(z % 16 + z / 16 % 16, Octets(n - 1, z / 256));
      Sum4Two(2 * (n - 1), z);
      hide Sum4, SmallNibbles;
      assert 2 * n == 2 * (n - 1) + 2;
    }
  }

  // --- One word ---

  const WORD: nat := 0x1_0000_0000

  /** The arithmetic of the source on one `uint32_t`, statement by statement. */
  function AddDigits(x: nat): (r: nat)
    requires x < WORD
    ensures r < WORD
  {
    (x - And(Shr(x, 1), 0x55555555)) % WORD
  }

  function AddPairs(a: nat): (r: nat)
    requires a < WORD
    ensures r < WORD
  {
    (And(a, 0x33333333) + And(Shr(a, 2), 0x33333333)) % WORD
  }

  function AddNibbles(b: nat): nat
    requires b < WORD
  {
    And((b + Shr(b, 4)) % WORD, 0x0F0F0F0F)
  }

  function AddBytes(c: nat): nat {
    Shr(c * 0x01010101 % WORD, 24)
  }

  function CountWord(x: nat): nat
    requires x < WORD
  {
    AddBytes(AddNibbles(AddPairs(AddDigits(x))))
  }

  lemma Masks()
    ensures Mask2(16) == 0x55555555 && Mask4(8) == 0x33333333 && Mask8(4) == 0x0F0F0F0F
  {
    assert Mask2(4) == 0x55;
    assert Mask2(8) == 0x5555;
    assert Mask2(12) == 0x555555;
    assert Mask4(4) == 0x3333;
  }

  lemma Shifts(v: nat)
    ensures Shr(v, 1) == v / 2 && Shr(v, 2) == v / 4 && Shr(v, 4) == v / 16 && Shr(v, 24) == v / 0x100_0000
  {
    Shift8(v);
    Shift8(v / 256);
    Shift8(v / 256 / 256);
    HighHigh(8, 16, v);
    HighHigh(8, 8, High(8, v));
    assert v / 256 / 256 / 256 == v / 0x100_0000;
  }

  lemma Shift8(v: nat)
    ensures High(8, v) == v / 256 && High(4, v) == v / 16
  {
    assert High(4, v) == High(2, v / 4) == v / 16;
    assert High(8, v) == High(6, v / 4) == High(4, v / 16) == High(2, v / 64) == v / 256;
  }

  lemma {:induction false} SmallNibblesBound(n: nat, z: nat)
    requires SmallNibbles(n, z)
    ensures 2 * z < Pow2(4 * n)
    decreases n
  {
    if n > 0 {
      SmallNibblesBound(n - 1, z / 16);
      hide Pow2;
      Pow2Two(4 * (n - 1));
      Pow2Two(4 * (n - 1) + 2);
      assert 4 * n == 4 * (n - 1) + 2 + 2;
    }
  }

  lemma WordSize()
    ensures Pow2(32) == WORD
  {
    hide Pow2;
    Pow2Zero();
    Pow2Eight(0);
    Pow2Eight(8);
    Pow2Eight(16);
    Pow2Eight(24);
  }

  lemma Pow2Eight(k: nat)
    ensures Pow2(k + 8) == 256 * Pow2(k)
  {
    hide Pow2;
    Pow2Two(k);
    Pow2Two(k + 2);
    Pow2Two(k + 4);
    Pow2Two(k + 6);
  }

  /** Last step: the multiplication adds up the four bytes in the highest one. */
  lemma MultiplyAdds(c: nat)
    requires SmallOctets(4, c)
    ensures c * 0x01010101 % WORD / 0x100_0000 == Sum8(4, c)
  {
    var p, q, r, t := c % 256, c / 256 % 256, c / 256 / 256 % 256, c / 256 / 256 / 256;
    assert SmallOctets(3, c / 256) && SmallOctets(2, c / 256 / 256) && SmallOctets(1, c / 256 / 256 / 256);
    assert t <= 12 && t % 256 == t;
    assert Sum8(4, c) == p + q + r + t by {
      assert Sum8(3, c / 256) == q + Sum8(2, c / 256 / 256);
      assert Sum8(1, t) == t;
    }
    hide Sum8, SmallOctets;
    assert c == p + 256 * q + 65536 * r + 16777216 * t;
    Product(p, q, r, t);
  }

  lemma Product(p: nat, q: nat, r: nat, t: nat)
    requires p <= 12 && q <= 12 && r <= 12 && t <= 12
    ensures (p + 256 * q + 65536 * r + 16777216 * t) * 0x01010101 % WORD / 0x100_0000 == p + q + r + t
  {
    var low := p + 256 * (p + q) + 65536 * (p + q + r);
    var high := (q + r + t) + 256 * (r + t) + 65536 * t;
    var product := (p + 256 * q + 65536 * r + 16777216 * t) * 0x01010101;
    var sum := low + 0x100_0000 * (p + q + r + t);
    assert product == sum + WORD * high;
    WordRemainder(sum, high);
    TopByte(low, p + q + r + t);
  }

  lemma WordRemainder(x: nat, high: nat)
    requires x < WORD
    ensures (x + WORD * high) % WORD == x
  {
  }

  lemma TopByte(low: nat, top: nat)
    requires low < 0x100_0000
    ensures (low + 0x100_0000 * top) / 0x100_0000 == top
  {
  }

  lemma AddDigitsIs(x: nat)
    requires x < WORD
    ensures AddDigits(x) == Pairs(16, x)
  {
    hide And, Shr, Pairs, Pow2, Mask2, Mask4, Mask8;
    Masks();
    WordSize();
    Shifts(x);
    PairStep(16, x);
  }

  lemma AddPairsIs(a: nat)
    requires a < WORD
    ensures AddPairs(a) == Nibbles(8, a) && SmallNibbles(8, Nibbles(8, a)) && 2 * Nibbles(8, a) < WORD
  {
    hide And, Shr, Nibbles, SmallNibbles, Pow2, Mask2, Mask4, Mask8;
    Masks();
    WordSize();
    Shifts(a);
    NibbleStep(8, a);
    NibblesSmall(8, a);
    SmallNibblesBound(8, Nibbles(8, a));
  }

  lemma AddNibblesIs(b: nat)
    requires 2 * b < WORD && SmallNibbles(8, b)
    ensures AddNibbles(b) == Octets(4, b)
  {
    hide And, Shr, Octets, SmallNibbles, Mask2, Mask4, Mask8;
    Masks();
    Shifts(b);
    OctetStep(4, b);
  }

  lemma AddBytesIs(c: nat)
    requires SmallOctets(4, c)
    ensures AddBytes(c) == Sum8(4, c)
  {
    hide Shr, SmallOctets, Sum8;
    MultiplyAdds(c);
    Shifts(c * 0x01010101 % WORD);
  }

  /** The arithmetic counts the ones of the word. */
  lemma CountWordIs(x: nat)
    requires x < WORD
    ensures CountWord(x) == Ones(x)
  {
    hide AddDigits, AddPairs, AddNibbles, AddBytes;
    hide Ones, Pairs, Nibbles, Octets, Sum2, Sum4, Sum8, SmallNibbles, SmallOctets, Pow2;
    WordSize();
    var a := Pairs(16, x);
    AddDigitsIs(x);
    PairsSum(16, x);
    var b := Nibbles(8, a);
    AddPairsIs(a);
    NibblesSum(8, a);
    AddNibblesIs(b);
    OctetsSum(4, b);
    AddBytesIs(Octets(4, b));
  }

  // --- The tail ---

  /** The table `bitsinbyte`, in rows of sixteen. */
  function BitsInByteRow(r: nat): (row: seq<nat>)
    requires r < 16
    ensures |row| == 16
  {
    if r == 0 then [0, 1, 1, 2, 1, 2, 2, 3, 1, 2, 2, 3, 2, 3, 3, 4]
    else if r == 1 || r == 2 || r == 4 || r == 8 then [1, 2, 2, 3, 2, 3, 3, 4, 2, 3, 3, 4, 3, 4, 4, 5]
    else if r == 7 || r == 11 || r == 13 || r == 14 then [3, 4, 4, 5, 4, 5, 5, 6, 4, 5, 5, 6, 5, 6, 6, 7]
    else if r == 15 then [4, 5, 5, 6, 5, 6, 6, 7, 5, 6, 6, 7, 6, 7, 7, 8]
    else [2, 3, 3, 4, 3, 4, 4, 5, 3, 4, 4, 5, 4, 5, 5, 6]
  }

  function BitsInByte(b: byte): nat {
    BitsInByteRow(b / 16)[b % 16]
  }

  function NibbleBits(c: nat): nat
    requires c < 16
  {
    BitsInByteRow(0)[c]
  }

  lemma NibbleTable()
    ensures NibbleBits(0) == 0 && NibbleBits(1) == 1 && NibbleBits(2) == 1 && NibbleBits(3) == 2
    ensures NibbleBits(4) == 1 && NibbleBits(5) == 2 && NibbleBits(6) == 2 && NibbleBits(7) == 3
    ensures NibbleBits(8) == 1 && NibbleBits(9) == 2 && NibbleBits(10) == 2 && NibbleBits(11) == 3
    ensures NibbleBits(12) == 2 && NibbleBits(13) == 3 && NibbleBits(14) == 3 && NibbleBits(15) == 4
  {
  }

  lemma SmallOnes()
    ensures Ones(0) == 0 && Ones(1) == 1 && Ones(2) == 1 && Ones(3) == 2
    ensures Ones(4) == 1 && Ones(5) == 2 && Ones(6) == 2 && Ones(7) == 3
    ensures Ones(8) == 1 && Ones(9) == 2 && Ones(10) == 2 && Ones(11) == 3
    ensures Ones(12) == 2 && Ones(13) == 3 && Ones(14) == 3 && Ones(15) == 4
  {
  }

  lemma NibbleOnes(c: nat)
    requires c < 16
    ensures Ones(c) == NibbleBits(c)
  {
    hide Ones, NibbleBits;
    NibbleTable();
    SmallOnes();
  }

  lemma RowAdds(r: nat, c: nat)
    requires r < 16 && c < 16
    ensures BitsInByteRow(r)[c] == NibbleBits(r) + NibbleBits(c)
  {
  }

  /** The table is right for every byte. */
  lemma BitsInByteIs(b: byte)
    ensures BitsInByte(b) == Ones(b)
  {
    hide Ones, BitsInByteRow, NibbleBits;
    RowAdds(b / 16, b % 16);
    NibbleOnes(b / 16);
    NibbleOnes(b % 16);
    SixteenUp(b / 16);
    OnesJoin(4, b % 16, b / 16);
  }

  lemma SixteenUp(v: nat)
    ensures Up(4, v) == 16 * v && Pow2(4) == 16
  {
    assert Up(4, v) == 4 * Up(2, v);
  }

  /** `redisPopcount`. */
  method RedisPopcount(s: seq<byte>) returns (bits: nat)
    ensures bits == TotalOnes(s)
  {
    hide TotalOnes, Ones, CountWord, Load;
    bits := 0;
    var p, count := 0, |s|;
    assert s[..0] == [];
    NoOnes();
    while count >= 16
      invariant 0 <= p <= |s| && p + count == |s| && bits == TotalOnes(s[..p])
    {
      var n1 := CountFour(s[p..p + 4]);
      var n2 := CountFour(s[p + 4..p + 8]);
      var n3 := CountFour(s[p + 8..p + 12]);
      var n4 := CountFour(s[p + 12..p + 16]);
      ExtendBy(s, p, p + 4);
      ExtendBy(s, p + 4, p + 8);
      ExtendBy(s, p + 8, p + 12);
      ExtendBy(s, p + 12, p + 16);
      bits := bits + (n1 + n2 + n3 + n4);
      p := p + 16;
      count := count - 16;
    }
    while count > 0
      invariant 0 <= p <= |s| && p + count == |s| && bits == TotalOnes(s[..p])
    {
      BitsInByteIs(s[p]);
      OneByte(s[p]);
      assert s[p..p + 1] == [s[p]];
      ExtendBy(s, p, p + 1);
      bits := bits + BitsInByte(s[p]);
      p := p + 1;
      count := count - 1;
    }
    assert s[..p] == s;
  }

  method CountFour(b: seq<byte>) returns (n: nat)
    requires |b| == 4
    ensures n == TotalOnes(b)
  {
    hide TotalOnes, Ones, CountWord, Load, Pow2;
    LoadBound(b);
    WordSize();
    OnesOfWord(b);
    CountWordIs(Load(b));
    n := CountWord(Load(b));
  }

  lemma ExtendBy(s: seq<byte>, p: nat, q: nat)
    requires p <= q <= |s|
    ensures TotalOnes(s[..q]) == TotalOnes(s[..p]) + TotalOnes(s[p..q])
  {
    assert s[..q] == s[..p] + s[p..q];
    TotalAppend(s[..p], s[p..q]);
  }

  lemma NoOnes()
    ensures TotalOnes([]) == 0
  {
  }

  lemma OneByte(b: byte)
    ensures TotalOnes([b]) == Ones(b)
  {
    hide Ones;
    assert [b][1..] == [];
  }
}
