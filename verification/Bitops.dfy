/**
 BITOP and BITCOUNT of `bitops.c`. BITOP folds a bitwise operation over strings of
 different lengths, four machine words at a time as far as all strings reach and byte
 by byte behind that. BITCOUNT counts bits in words with arithmetic on fields of the word.
 */
module Bitops {
  import opened Common
  import opened Words

  datatype Op = AND | OR | XOR | NOT

  lemma ByteSize()
    ensures Pow2(8) == 256
  {
    assert Pow2(4) == 16;
  }

  /** The operation on two bytes; NOT looks at the first only. */
  function Combine(op: Op, a: byte, b: byte): byte {
    ByteSize();
    match op
    case AND =>
      AndBound(a, b);
      And(a, b)
    case OR =>
      OrBound(8, a, b);
      Or(a, b)
    case XOR =>
      XorBound(8, a, b);
      Xor(a, b)
    case NOT => Not(8, a)
  }

  // --- The definition of BITOP ---

  /** Strings are padded with zero bytes. */
  function ByteAt(s: seq<byte>, j: nat): byte {
    if j < |s| then s[j] else 0
  }

  /** The operation folded over byte `j` of the first `n` strings. */
  function Fold(op: Op, srcs: seq<seq<byte>>, j: nat, n: nat): byte
    requires 1 <= n <= |srcs|
  {
    if n == 1 then
      var first := ByteAt(srcs[0], j);
      if op.NOT? then Combine(NOT, first, first) else first
    else Combine(op, Fold(op, srcs, j, n - 1), ByteAt(srcs[n - 1], j))
  }

  // --- Machine words ---

  /** The word that a sequence of bytes is, the first byte lowest. */
  function Load(b: seq<byte>): nat {
    if b == [] then 0 else Up(8, Load(b[1..])) + b[0]
  }

  function Store(w: nat, n: nat): (b: seq<byte>)
    ensures |b| == n
    decreases n
  {
    if n == 0 then [] else
      ByteSize();
      [Low(8, w)] + Store(High(8, w), n - 1)
  }

  lemma {:induction false} StoreLoad(b: seq<byte>)
    ensures Store(Load(b), |b|) == b
  {
    if b != [] {
      ByteSize();
      CutUp(8, Load(b[1..]), b[0]);
      StoreLoad(b[1..]);
      hide Up, Low, High;
      assert b == [b[0]] + b[1..];
    }
  }

  lemma {:induction false} UpBound(k: nat, n: nat, x: nat)
    requires x < Pow2(n)
    ensures Up(k, x) + Pow2(k) <= Pow2(k + n)
  {
    if k > 0 {
      UpBound(k - 1, n, x);
    }
  }

  lemma {:induction false} LoadBound(b: seq<byte>)
    ensures Load(b) < Pow2(8 * |b|)
  {
    if b != [] {
      LoadBound(b[1..]);
      ByteSize();
      hide Up, Pow2;
      UpBound(8, 8 * |b[1..]|, Load(b[1..]));
      assert 8 + 8 * |b[1..]| == 8 * |b|;
    }
  }

  // --- Operators act on the two parts of a number ---

  lemma {:induction false} AndJoin(k: nat, a: nat, b: nat, x: nat, y: nat)
    requires a < Pow2(k) && b < Pow2(k)
    ensures And(Up(k, x) + a, Up(k, y) + b) == Up(k, And(x, y)) + And(a, b)
  {
    if k == 0 {
      AndStep(0, 0);
    } else {
      hide And;
      AndJoin(k - 1, a / 2, b / 2, x, y);
      AndStep(Up(k, x) + a, Up(k, y) + b);
      AndStep(a, b);
      assert (Up(k, x) + a) / 2 == Up(k - 1, x) + a / 2 && (Up(k, y) + b) / 2 == Up(k - 1, y) + b / 2;
    }
  }

  lemma {:induction false} OrJoin(k: nat, a: nat, b: nat, x: nat, y: nat)
    requires a < Pow2(k) && b < Pow2(k)
    ensures Or(Up(k, x) + a, Up(k, y) + b) == Up(k, Or(x, y)) + Or(a, b)
  {
    if k == 0 {
      OrStep(0, 0);
    } else {
      hide Or;
      OrJoin(k - 1, a / 2, b / 2, x, y);
      OrStep(Up(k, x) + a, Up(k, y) + b);
      OrStep(a, b);
      assert (Up(k, x) + a) / 2 == Up(k - 1, x) + a / 2 && (Up(k, y) + b) / 2 == Up(k - 1, y) + b / 2;
    }
  }

  lemma {:induction false} XorJoin(k: nat, a: nat, b: nat, x: nat, y: nat)
    requires a < Pow2(k) && b < Pow2(k)
    ensures Xor(Up(k, x) + a, Up(k, y) + b) == Up(k, Xor(x, y)) + Xor(a, b)
  {
    if k == 0 {
      XorStep(0, 0);
    } else {
      hide Xor;
      XorJoin(k - 1, a / 2, b / 2, x, y);
      XorStep(Up(k, x) + a, Up(k, y) + b);
      XorStep(a, b);
      assert (Up(k, x) + a) / 2 == Up(k - 1, x) + a / 2 && (Up(k, y) + b) / 2 == Up(k - 1, y) + b / 2;
    }
  }

  lemma {:induction false} NotJoin(k: nat, n: nat, a: nat, x: nat)
    requires a < Pow2(k) && x < Pow2(n)
    ensures Up(k, x) + a < Pow2(k + n)
    ensures Not(k + n, Up(k, x) + a) == Up(k, Not(n, x)) + Not(k, a)
  {
    if k > 0 {
      NotJoin(k - 1, n, a / 2, x);
    }
  }

  /** The operation on words of `n` digits. */
  function CombineWord(op: Op, n: nat, x: nat, y: nat): nat
    requires x < Pow2(n)
  {
    match op
    case AND => And(x, y)
    case OR => Or(x, y)
    case XOR => Xor(x, y)
    case NOT => Not(n, x)
  }

  function Bytewise(op: Op, a: seq<byte>, b: seq<byte>): (r: seq<byte>)
    requires |a| == |b|
    ensures |r| == |a| && forall i | 0 <= i < |r| :: r[i] == Combine(op, a[i], b[i])
  {
    seq(|a|, i requires 0 <= i < |a| => Combine(op, a[i], b[i]))
  }

  lemma JoinStep(op: Op, n: nat, a: byte, b: byte, x: nat, y: nat)
    requires x < Pow2(n)
    ensures Up(8, x) + a < Pow2(8 + n)
    ensures CombineWord(op, 8 + n, Up(8, x) + a, Up(8, y) + b) == Up(8, CombineWord(op, n, x, y)) + Combine(op, a, b)
  {
    hide Up, Pow2, And, Or, Xor, Not;
    ByteSize();
    NotJoin(8, n, a, x);
    match op
    case AND => AndJoin(8, a, b, x, y);
    case OR => OrJoin(8, a, b, x, y);
    case XOR => XorJoin(8, a, b, x, y);
    case NOT =>
  }

  /** An operation on words is the operation on each of their bytes. */
  lemma {:induction false} WordIsBytewise(op: Op, a: seq<byte>, b: seq<byte>)
    requires |a| == |b|
    ensures Load(a) < Pow2(8 * |a|)
    ensures CombineWord(op, 8 * |a|, Load(a), Load(b)) == Load(Bytewise(op, a, b))
  {
    hide Up, Pow2, Combine, CombineWord;
    LoadBound(a);
    if a == [] {
      EmptyWord(op);
    } else {
      WordIsBytewise(op, a[1..], b[1..]);
      JoinStep(op, 8 * |a[1..]|, a[0], b[0], Load(a[1..]), Load(b[1..]));
      assert 8 + 8 * |a[1..]| == 8 * |a|;
      assert Bytewise(op, a, b)[1..] == Bytewise(op, a[1..], b[1..]);
    }
  }

  lemma EmptyWord(op: Op)
    ensures 0 < Pow2(0) && CombineWord(op, 0, 0, 0) == 0
  {
  }

  // --- BITOP ---

  /** One word of the result combined with the word of a source at the same place. */
  method CombineOneWord(op: Op, res: array<byte>, off: nat, src: seq<byte>)
    requires off + 8 <= res.Length && off + 8 <= |src|
    modifies res
    ensures forall q | 0 <= q < res.Length ::
              res[q] == if off <= q < off + 8 then Combine(op, old(res[q]), src[q]) else old(res[q])
  {
    hide Load, Store, CombineWord, Combine, Pow2;
    var a, b := res[off..off + 8], src[off..off + 8];
    WordIsBytewise(op, a, b);
    StoreLoad(Bytewise(op, a, b));
    var w := Store(CombineWord(op, 64, Load(a), Load(b)), 8);
    var i := 0;
    while i < 8
      invariant 0 <= i <= 8
      invariant forall q | 0 <= q < res.Length :: res[q] == if off <= q < off + i then w[q - off] else old(res[q])
    {
      res[off + i] := w[i];
      i := i + 1;
    }
  }

  /** Four words of one source: the body of the inner loop of the fast path. */
  method CombineFourWords(op: Op, res: array<byte>, off: nat, src: seq<byte>)
    requires off + 32 <= res.Length && off + 32 <= |src|
    modifies res
    ensures forall q | 0 <= q < res.Length ::
              res[q] == if off <= q < off + 32 then Combine(op, old(res[q]), src[q]) else old(res[q])
  {
    hide Combine;
    CombineOneWord(op, res, off, src);
    CombineOneWord(op, res, off + 8, src);
    CombineOneWord(op, res, off + 16, src);
    CombineOneWord(op, res, off + 24, src);
  }

  /** The sources have at least `common` bytes, and there is one if the operation is NOT. */
  predicate Operands(op: Op, srcs: seq<seq<byte>>, common: nat) {
    && srcs != [] && (op.NOT? ==> |srcs| == 1)
    && forall i | 0 <= i < |srcs| :: common <= |srcs[i]|
  }

  /** The bytes below `j` are done; the others up to `common` are a copy of the first string. */
  ghost predicate Progress(op: Op, srcs: seq<seq<byte>>, res: seq<byte>, j: nat, common: nat)
    requires Operands(op, srcs, common) && j <= common <= |res|
  {
    && (forall q: nat | q < j :: res[q] == Fold(op, srcs, q, |srcs|))
    && (forall q: nat | j <= q < common :: res[q] == srcs[0][q])
  }

  /** One round of the fast path: 32 bytes, over all sources. */
  method CombineRound(op: Op, srcs: seq<seq<byte>>, res: array<byte>, j: nat, common: nat)
    requires Operands(op, srcs, common) && j + 32 <= common <= res.Length && Progress(op, srcs, res[..], j, common)
    modifies res
    ensures Progress(op, srcs, res[..], j + 32, common)
  {
    hide Combine;
    if op.NOT? {
      CombineFourWords(op, res, j, srcs[0]);
      return;
    }
    var i := 1;
    while i < |srcs|
      invariant 1 <= i <= |srcs|
      invariant forall q: nat | j <= q < j + 32 :: res[q] == Fold(op, srcs, q, i)
      invariant forall q: nat | q < j || j + 32 <= q < res.Length :: res[q] == old(res[q])
    {
      CombineFourWords(op, res, j, srcs[i]);
      i := i + 1;
    }
  }

  /** The byte loop: byte `j` folded over all sources. */
  method FoldByte(op: Op, srcs: seq<seq<byte>>, j: nat) returns (output: byte)
    requires srcs != [] && (op.NOT? ==> |srcs| == 1)
    ensures output == Fold(op, srcs, j, |srcs|)
  {
    output := if |srcs[0]| <= j then 0 else srcs[0][j];
    if op.NOT? {
      output := Combine(NOT, output, output);
    }
    var i := 1;
    while i < |srcs|
      invariant 1 <= i <= |srcs| && output == Fold(op, srcs, j, i)
    {
      var b := if |srcs[i]| <= j then 0 else srcs[i][j];
      output := Combine(op, output, b);
      i := i + 1;
    }
  }

  /** The lengths of the longest and of the shortest source. */
  method Lengths(srcs: seq<seq<byte>>) returns (maxlen: nat, minlen: nat)
    requires srcs != []
    ensures forall i | 0 <= i < |srcs| :: minlen <= |srcs[i]| <= maxlen
    ensures (exists i | 0 <= i < |srcs| :: |srcs[i]| == maxlen) && exists i | 0 <= i < |srcs| :: |srcs[i]| == minlen
  {
    maxlen, minlen := |srcs[0]|, |srcs[0]|;
    var j := 1;
    while j < |srcs|
      invariant 1 <= j <= |srcs| && forall i | 0 <= i < j :: minlen <= |srcs[i]| <= maxlen
      invariant (exists i | 0 <= i < j :: |srcs[i]| == maxlen) && exists i | 0 <= i < j :: |srcs[i]| == minlen
    {
      if |srcs[j]| > maxlen {
        maxlen := |srcs[j]|;
      }
      if |srcs[j]| < minlen {
        minlen := |srcs[j]|;
      }
      j := j + 1;
    }
  }

  /** A source of BITOP: a key that is missing counts as an empty string, and one of another type is an error. */
  datatype Source = Missing | Text(bytes: seq<byte>) | WrongType

  function TextOf(s: Source): seq<byte> {
    if s.Text? then s.bytes else []
  }

  function Texts(sources: seq<Source>): (r: seq<seq<byte>>)
    ensures |r| == |sources| && forall i | 0 <= i < |r| :: r[i] == TextOf(sources[i])
  {
    seq(|sources|, i requires 0 <= i < |sources| => TextOf(sources[i]))
  }

  /** The source has a byte `j`, and bit `i` of it is set. */
  predicate Holds(source: Source, j: nat, i: nat) {
    source.Text? && j < |source.bytes| && Bit(source.bytes[j], i)
  }

  ghost function Holders(sources: seq<Source>, j: nat, i: nat): set<nat> {
    set k | 0 <= k < |sources| && Holds(sources[k], j, i)
  }

  /** What bit `i` of byte `j` of the result has to be. */
  ghost predicate ResultBit(op: Op, sources: seq<Source>, j: nat, i: nat) {
    match op
    case AND => forall k | 0 <= k < |sources| :: Holds(sources[k], j, i)
    case OR => exists k | 0 <= k < |sources| :: Holds(sources[k], j, i)
    case XOR => |Holders(sources, j, i)| % 2 == 1
    case NOT => sources != [] && !Holds(sources[0], j, i)
  }

  /** The result is as long as the longest source. */
  ghost predicate LongestOf(sources: seq<Source>, n: nat) {
    && (forall k | 0 <= k < |sources| && sources[k].Text? :: |sources[k].bytes| <= n)
    && (n == 0 || exists k | 0 <= k < |sources| :: sources[k].Text? && |sources[k].bytes| == n)
  }

  lemma CombineBit(op: Op, a: byte, b: byte, i: nat)
    requires i < 8
    ensures Bit(Combine(op, a, b), i) <==>
              match op
              case AND => Bit(a, i) && Bit(b, i)
              case OR => Bit(a, i) || Bit(b, i)
              case XOR => Bit(a, i) != Bit(b, i)
              case NOT => !Bit(a, i)
  {
    ByteSize();
    hide Bit, And, Or, Xor, Pow2;
    BitAnd(a, b, i);
    BitOr(a, b, i);
    BitXor(a, b, i);
    BitNot(a, i);
  }

  lemma BitNot(a: byte, i: nat)
    requires i < 8
    ensures a < Pow2(8) && (Bit(Not(8, a), i) <==> !Bit(a, i))
  {
    ByteSize();
    BitComplement(8, a, i);
  }

  lemma PaddedBit(source: Source, j: nat, i: nat)
    ensures Bit(ByteAt(TextOf(source), j), i) <==> Holds(source, j, i)
  {
    BitZero(i);
  }

  lemma OneMoreHolder(sources: seq<Source>, j: nat, i: nat, n: nat)
    requires n < |sources|
    ensures |Holders(sources[..n + 1], j, i)|
         == |Holders(sources[..n], j, i)| + if Holds(sources[n], j, i) then 1 else 0
  {
    hide Holds;
    var had, has := Holders(sources[..n], j, i), Holders(sources[..n + 1], j, i);
    assert has == if Holds(sources[n], j, i) then had + {n} else had;
  }

  /** The fold over the padded strings, bit by bit. */
  lemma {:induction false} FoldBit(op: Op, sources: seq<Source>, j: nat, i: nat, n: nat)
    requires 1 <= n <= |sources| && i < 8 && (op.NOT? ==> n == 1)
    ensures Bit(Fold(op, Texts(sources), j, n), i) <==> ResultBit(op, sources[..n], j, i)
  {
    hide Bit, Combine, ByteAt, TextOf, Holds;
    var srcs := Texts(sources);
    PaddedBit(sources[n - 1], j, i);
    if n > 1 {
      FoldBit(op, sources, j, i, n - 1);
      CombineBit(op, Fold(op, srcs, j, n - 1), ByteAt(srcs[n - 1], j), i);
      ResultBitMore(op, sources, j, i, n);
    } else {
      CombineBit(op, ByteAt(srcs[0], j), ByteAt(srcs[0], j), i);
      ResultBitOne(op, sources, j, i);
    }
  }

  lemma ResultBitOne(op: Op, sources: seq<Source>, j: nat, i: nat)
    requires sources != []
    ensures ResultBit(op, sources[..1], j, i) <==> (Holds(sources[0], j, i) != op.NOT?)
  {
    hide Holds;
    OneMoreHolder(sources, j, i, 0);
    assert sources[..1] == [sources[0]];
    assert Holders(sources[..0], j, i) == {};
  }

  lemma ResultBitMore(op: Op, sources: seq<Source>, j: nat, i: nat, n: nat)
    requires 1 < n <= |sources| && !op.NOT?
    ensures var had, holds := ResultBit(op, sources[..n - 1], j, i), Holds(sources[n - 1], j, i);
            ResultBit(op, sources[..n], j, i) <==>
              match op
              case AND => had && holds
              case OR => had || holds
              case _ => had != holds
  {
    hide Holds;
    OneMoreHolder(sources, j, i, n - 1);
    var before, now := sources[..n - 1], sources[..n];
    assert forall k | 0 <= k < n - 1 :: now[k] == before[k];
    assert now[n - 1] == sources[n - 1];
  }

  /**
   `bitopCommand`, from the lookup of the sources to the result: bit by bit the operation
   over all sources, where bytes that a source does not have count as zero.
   */
  method Bitop(op: Op, sources: seq<Source>) returns (r: Option<seq<byte>>)
    requires sources != []
    ensures r.None? <==> (op.NOT? && |sources| != 1) || WrongType in sources
    ensures r.Some? ==> LongestOf(sources, |r.value|)
    ensures r.Some? ==> forall j: nat, i: nat | j < |r.value| && i < 8 ::
                          Bit(r.value[j], i) <==> ResultBit(op, sources, j, i)
  {
    hide Combine, Fold, Bit, ResultBit;
    if op.NOT? && |sources| != 1 {
      return None;
    }
    var i := 0;
    while i < |sources|
      invariant 0 <= i <= |sources| && forall j | 0 <= j < i :: !sources[j].WrongType?
    {
      if sources[i].WrongType? {
        return None;
      }
      i := i + 1;
    }
    var srcs := Texts(sources);
    var maxlen, minlen := Lengths(srcs);
    var res := new byte[maxlen];
    var done := FastPath(op, srcs, res, minlen);
    SlowPath(op, srcs, res, done);
    r := Some(res[..]);
    forall j: nat, b: nat | j < res.Length && b < 8
      ensures Bit(res[j], b) <==> ResultBit(op, sources, j, b)
    {
      FoldBit(op, sources, j, b, |sources|);
      assert sources[..|sources|] == sources;
    }
  }

  /** The fast path, taken for at most 16 sources; returns how many bytes are done. */
  method FastPath(op: Op, srcs: seq<seq<byte>>, res: array<byte>, minlen: nat) returns (j: nat)
    requires Operands(op, srcs, minlen) && minlen <= res.Length
    modifies res
    ensures j <= res.Length && forall q: nat | q < j :: res[q] == Fold(op, srcs, q, |srcs|)
  {
    hide Combine, Fold;
    j := 0;
    if minlen == 0 || |srcs| > 16 {
      return;
    }
    var i := 0;
    while i < minlen
      invariant 0 <= i <= minlen && forall q | 0 <= q < i :: res[q] == srcs[0][q]
    {
      res[i] := srcs[0][i];
      i := i + 1;
    }
    var left := minlen;
    while left >= 32
      invariant j + left == minlen && Progress(op, srcs, res[..], j, minlen)
    {
      CombineRound(op, srcs, res, j, minlen);
      j := j + 32;
      left := left - 32;
    }
  }

  method SlowPath(op: Op, srcs: seq<seq<byte>>, res: array<byte>, from: nat)
    requires srcs != [] && (op.NOT? ==> |srcs| == 1) && from <= res.Length
    requires forall q: nat | q < from :: res[q] == Fold(op, srcs, q, |srcs|)
    modifies res
    ensures forall q: nat | q < res.Length :: res[q] == Fold(op, srcs, q, |srcs|)
  {
    hide Fold;
    var j := from;
    while j < res.Length
      invariant from <= j <= res.Length && forall q: nat | q < j :: res[q] == Fold(op, srcs, q, |srcs|)
    {
      var output := FoldByte(op, srcs, j);
      res[j] := output;
      j := j + 1;
    }
  }
}
