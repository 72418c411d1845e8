/**
 The integer set of `intset.c`: a sorted array of integers packed into bytes, two, four
 or eight to an element, that is widened in place when a value does not fit.
 */
module Intset {
  import opened Common

  // --- Packed integers ---

  predicate IsEncoding(enc: nat) {
    enc == 2 || enc == 4 || enc == 8
  }

  /** One more than the largest integer that fits the encoding. */
  function Half(enc: nat): int
    requires IsEncoding(enc)
  {
    if enc == 2 then 0x8000 else if enc == 4 then 0x8000_0000 else 0x8000_0000_0000_0000
  }

  predicate Fits(v: int, enc: nat)
    requires IsEncoding(enc)
  {
    -Half(enc) <= v < Half(enc)
  }

  /** `_intsetValueEncoding`: the narrowest encoding that holds the value. */
  function ValueEncoding(v: int): (enc: nat)
    requires Fits(v, 8)
    ensures IsEncoding(enc) && Fits(v, enc)
    ensures forall e: nat | IsEncoding(e) && Fits(v, e) :: enc <= e
  {
    if v < -0x8000_0000 || v > 0x7FFF_FFFF then 8
    else if v < -0x8000 || v > 0x7FFF then 4
    else 2
  }

  /** Little endian. */
  function Number(b: seq<byte>): nat {
    if b == [] then 0 else b[0] + 256 * Number(b[1..])
  }

  function NumberBytes(n: nat, width: nat): (b: seq<byte>)
    ensures |b| == width
  {
    if width == 0 then [] else [n % 256] + NumberBytes(n / 256, width - 1)
  }

  function Pow256(width: nat): nat {
    if width == 0 then 1 else 256 * Pow256(width - 1)
  }

  lemma {:induction false} NumberRoundTrip(n: nat, width: nat)
    requires n < Pow256(width)
    ensures Number(NumberBytes(n, width)) == n
  {
    if width > 0 {
      NumberRoundTrip(n / 256, width - 1);
      assert NumberBytes(n, width)[1..] == NumberBytes(n / 256, width - 1);
    }
  }

  lemma Pow256Half(enc: nat)
    requires IsEncoding(enc)
    ensures Pow256(enc) == 2 * Half(enc)
  {
    assert Pow256(2) == 0x1_0000;
    assert Pow256(4) == 0x1_0000_0000;
    assert Pow256(6) == 0x1_0000_0000_0000;
    assert Pow256(8) == 0x1_0000_0000_0000_0000;
  }

  /** Two's complement. */
  function Pack(v: int, enc: nat): (b: seq<byte>)
    requires IsEncoding(enc) && Fits(v, enc)
    ensures |b| == enc
  {
    NumberBytes(if v < 0 then v + 2 * Half(enc) else v, enc)
  }

  function Unpack(b: seq<byte>, enc: nat): int
    requires IsEncoding(enc)
  {
    var n := Number(b);
    if n >= Half(enc) then n - 2 * Half(enc) else n
  }

  lemma PackRoundTrip(v: int, enc: nat)
    requires IsEncoding(enc) && Fits(v, enc)
    ensures Unpack(Pack(v, enc), enc) == v
  {
    Pow256Half(enc);
    NumberRoundTrip(if v < 0 then v + 2 * Half(enc) else v, enc);
  }

  lemma {:induction false} NumberBound(b: seq<byte>)
    ensures Number(b) < Pow256(|b|)
  {
    if b != [] {
      NumberBound(b[1..]);
    }
  }

  /** Whatever the bytes are, they stand for an integer of the encoding. */
  lemma UnpackFits(b: seq<byte>, enc: nat)
    requires IsEncoding(enc) && |b| == enc
    ensures Fits(Unpack(b, enc), enc)
  {
    Pow256Half(enc);
    NumberBound(b);
  }

  // --- Elements ---

  /** Where element `pos` begins. */
  function Offset(pos: nat, enc: nat): nat
    requires IsEncoding(enc)
  {
    if enc == 2 then 2 * pos else if enc == 4 then 4 * pos else 8 * pos
  }

  lemma OffsetNext(pos: nat, enc: nat)
    requires IsEncoding(enc)
    ensures Offset(pos + 1, enc) == Offset(pos, enc) + enc
  {
  }

  lemma OffsetOrder(p: nat, q: nat, enc: nat)
    requires IsEncoding(enc) && p < q
    ensures Offset(p, enc) + enc <= Offset(q, enc)
  {
  }

  /** Elements never begin earlier in a wider encoding. */
  lemma OffsetWider(p: nat, q: nat, enc: nat, wider: nat)
    requires IsEncoding(enc) && IsEncoding(wider) && enc <= wider && p <= q
    ensures Offset(p, enc) <= Offset(q, wider)
  {
  }

  /** `_intsetGetEncoded`. */
  function ValueAt(b: seq<byte>, pos: nat, enc: nat): int
    requires IsEncoding(enc) && Offset(pos, enc) + enc <= |b|
  {
    Unpack(b[Offset(pos, enc)..Offset(pos, enc) + enc], enc)
  }

  /** The first `n` elements. */
  function Values(b: seq<byte>, n: nat, enc: nat): (vs: seq<int>)
    requires IsEncoding(enc) && Offset(n, enc) <= |b|
    ensures |vs| == n
  {
    if n == 0 then [] else
      OffsetNext(n - 1, enc);
      Values(b, n - 1, enc) + [ValueAt(b, n - 1, enc)]
  }

  lemma {:induction false} ValuesAt(b: seq<byte>, n: nat, enc: nat, i: nat)
    requires IsEncoding(enc) && Offset(n, enc) <= |b| && i < n
    ensures Offset(i, enc) + enc <= |b| && Values(b, n, enc)[i] == ValueAt(b, i, enc)
  {
    OffsetNext(n - 1, enc);
    if i < n - 1 {
      ValuesAt(b, n - 1, enc, i);
    }
  }

  /** Element sequences are the same if the elements are. */
  lemma ValuesAre(b: seq<byte>, n: nat, enc: nat, vs: seq<int>)
    requires IsEncoding(enc) && Offset(n, enc) <= |b| && |vs| == n
    requires forall i: nat | i < n :: Offset(i, enc) + enc <= |b| && ValueAt(b, i, enc) == vs[i]
    ensures Values(b, n, enc) == vs
  {
    hide Values, ValueAt;
    forall i | 0 <= i < n
      ensures Values(b, n, enc)[i] == vs[i]
    {
      ValuesAt(b, n, enc, i);
    }
  }

  predicate Increasing(vs: seq<int>) {
    forall i, j | 0 <= i < j < |vs| :: vs[i] < vs[j]
  }

  predicate AllFit(vs: seq<int>, enc: nat)
    requires IsEncoding(enc)
  {
    forall i | 0 <= i < |vs| :: Fits(vs[i], enc)
  }

  /** A value that needs a wider encoding is a new minimum if negative, and a new maximum if not. */
  lemma WiderIsExtreme(vs: seq<int>, enc: nat, value: int)
    requires IsEncoding(enc) && AllFit(vs, enc) && Fits(value, 8) && ValueEncoding(value) > enc
    ensures if value < 0 then forall i | 0 <= i < |vs| :: value < vs[i] else forall i | 0 <= i < |vs| :: vs[i] < value
  {
    assert !Fits(value, enc);
  }

  lemma ValuesFit(b: seq<byte>, n: nat, enc: nat)
    requires IsEncoding(enc) && Offset(n, enc) <= |b|
    ensures AllFit(Values(b, n, enc), enc)
  {
    forall i | 0 <= i < n
      ensures Fits(Values(b, n, enc)[i], enc)
    {
      ValuesAt(b, n, enc, i);
      UnpackFits(b[Offset(i, enc)..Offset(i, enc) + enc], enc);
    }
  }

  // --- Stores ---

  /** The bytes after a store at `pos`. */
  function Stored(b: seq<byte>, pos: nat, enc: nat, value: int): (b': seq<byte>)
    requires IsEncoding(enc) && Offset(pos, enc) + enc <= |b| && Fits(value, enc)
    ensures |b'| == |b|
  {
    b[..Offset(pos, enc)] + Pack(value, enc) + b[Offset(pos, enc) + enc..]
  }

  lemma StoredSame(b: seq<byte>, pos: nat, enc: nat, value: int)
    requires IsEncoding(enc) && Offset(pos, enc) + enc <= |b| && Fits(value, enc)
    ensures ValueAt(Stored(b, pos, enc, value), pos, enc) == value
  {
    hide Pack, Unpack, Fits;
    var off := Offset(pos, enc);
    assert Stored(b, pos, enc, value)[off..off + enc] == Pack(value, enc);
    PackRoundTrip(value, enc);
  }

  lemma StoredOther(b: seq<byte>, pos: nat, enc: nat, value: int, q: nat)
    requires IsEncoding(enc) && Offset(pos, enc) + enc <= |b| && Fits(value, enc)
    requires q != pos && Offset(q, enc) + enc <= |b|
    ensures ValueAt(Stored(b, pos, enc, value), q, enc) == ValueAt(b, q, enc)
  {
    hide Pack, Unpack, Fits, Offset;
    var off := Offset(q, enc);
    if q < pos {
      OffsetOrder(q, pos, enc);
    } else {
      OffsetOrder(pos, q, enc);
    }
    assert Stored(b, pos, enc, value)[off..off + enc] == b[off..off + enc];
  }

  // --- Widening in place ---

  /**
   Widening is done down to element `k`: below it the bytes are untouched, from it on the
   elements have moved to their new places, `shift` further on.
   */
  ghost predicate Widened(
    b: seq<byte>, b0: seq<byte>, k: nat, n: nat, enc: nat, wider: nat, shift: nat, vs: seq<int>)
    requires IsEncoding(enc) && IsEncoding(wider) && |vs| == n
  {
    && |b| == |b0| == Offset(n + 1, wider)
    && k <= n && Offset(n, enc) <= |b|
    && b[..Offset(k, enc)] == b0[..Offset(k, enc)]
    && (forall i: nat | k <= i < n :: Holds(b, i + shift, wider, vs[i]))
  }

  predicate Holds(b: seq<byte>, pos: nat, enc: nat, v: int)
    requires IsEncoding(enc)
  {
    Offset(pos, enc) + enc <= |b| && ValueAt(b, pos, enc) == v
  }

  /** Moving one element does not touch the elements that are still to be read. */
  lemma WidenStep(b: seq<byte>, b0: seq<byte>, k: nat, n: nat, enc: nat, wider: nat, shift: nat, vs: seq<int>)
    requires IsEncoding(enc) && IsEncoding(wider) && enc <= wider && |vs| == n && shift <= 1 && k < n
    requires Widened(b, b0, k + 1, n, enc, wider, shift, vs)
    requires vs == Values(b0, n, enc) && AllFit(vs, wider)
    ensures Offset(k, enc) + enc <= |b| && ValueAt(b, k, enc) == vs[k]
    ensures Offset(k + shift, wider) + wider <= |b|
    ensures Widened(Stored(b, k + shift, wider, vs[k]), b0, k, n, enc, wider, shift, vs)
  {
    hide Values, ValueAt, Pack, Offset, Fits;
    ValuesAt(b0, n, enc, k);
    OffsetNext(k, enc);
    OffsetOrder(k + shift, n + 1, wider);
    OffsetWider(k, k + shift, enc, wider);
    OffsetWider(k + 1, n, enc, enc);
    var start, end := Offset(k, enc), Offset(k, enc) + enc;
    ValueKept(b, b0, k, enc);
    var b' := Stored(b, k + shift, wider, vs[k]);
    forall i: nat | k <= i < n
      ensures Holds(b', i + shift, wider, vs[i])
    {
      if i == k {
        StoredSame(b, k + shift, wider, vs[k]);
      } else {
        assert Holds(b, i + shift, wider, vs[i]);
        StoredOther(b, k + shift, wider, vs[k], i + shift);
      }
    }
    assert b'[..start] == b[..start] == b[..end][..start] == b0[..end][..start] == b0[..start];
  }

  lemma ValueKept(b: seq<byte>, b': seq<byte>, k: nat, enc: nat)
    requires IsEncoding(enc) && Offset(k, enc) + enc <= |b| && Offset(k, enc) + enc <= |b'|
    requires b[..Offset(k, enc) + enc] == b'[..Offset(k, enc) + enc]
    ensures ValueAt(b, k, enc) == ValueAt(b', k, enc)
  {
    hide Unpack, Offset;
    var start, end := Offset(k, enc), Offset(k, enc) + enc;
    assert b[start..end] == b[..end][start..] == b'[..end][start..] == b'[start..end];
  }

  /** The last store completes the new sequence. */
  lemma WidenLast(b: seq<byte>, b0: seq<byte>, n: nat, enc: nat, wider: nat, value: int, vs: seq<int>)
    requires IsEncoding(enc) && IsEncoding(wider) && |vs| == n && Fits(value, wider)
    requires var shift := if value < 0 then 1 else 0; Widened(b, b0, 0, n, enc, wider, shift, vs)
    ensures var pos := if value < 0 then 0 else n;
            && Offset(pos, wider) + wider <= |b|
            && Offset(n + 1, wider) <= |Stored(b, pos, wider, value)|
            && Values(Stored(b, pos, wider, value), n + 1, wider) == if value < 0 then [value] + vs else vs + [value]
  {
    hide Values, ValueAt, Pack, Offset, Fits;
    var shift, pos := if value < 0 then 1 else 0, if value < 0 then 0 else n;
    OffsetOrder(pos, n + 1, wider);
    var b' := Stored(b, pos, wider, value);
    var all := if value < 0 then [value] + vs else vs + [value];
    forall i: nat | i < n + 1
      ensures Offset(i, wider) + wider <= |b'| && ValueAt(b', i, wider) == all[i]
    {
      OffsetOrder(i, n + 1, wider);
      if i == pos {
        StoredSame(b, pos, wider, value);
      } else {
        assert Holds(b, (i - shift) + shift, wider, vs[i - shift]);
        StoredOther(b, pos, wider, value, i);
      }
    }
    ValuesAre(b', n + 1, wider, all);
  }

  // --- Moving the tail ---

  /** `memmove` of the elements from `from` on to `to`. */
  function Moved(b: seq<byte>, n: nat, enc: nat, from: nat, to: nat): (b': seq<byte>)
    requires IsEncoding(enc) && from <= n && Offset(n, enc) <= |b| && Offset(to + (n - from), enc) <= |b|
    ensures |b'| == |b|
  {
    b[..Offset(to, enc)] + b[Offset(from, enc)..Offset(n, enc)] + b[Offset(to + (n - from), enc)..]
  }

  lemma OffsetDistance(p: nat, q: nat, d: nat, enc: nat)
    requires IsEncoding(enc)
    ensures Offset(p + d, enc) - Offset(p, enc) == Offset(q + d, enc) - Offset(q, enc)
  {
  }

  lemma SliceMiddle(p: seq<byte>, m: seq<byte>, t: seq<byte>, i: nat, j: nat)
    requires i <= j <= |m|
    ensures (p + m + t)[|p| + i..|p| + j] == m[i..j]
  {
  }

  lemma SliceSlice(b: seq<byte>, x: nat, y: nat, i: nat, j: nat)
    requires x <= y <= |b| && i <= j <= y - x
    ensures b[x..y][i..j] == b[x + i..x + j]
  {
    assert forall q | 0 <= q < j - i :: b[x..y][i..j][q] == b[x..y][i + q] == b[x + i + q] == b[x + i..x + j][q];
  }

  lemma MovedAt(b: seq<byte>, n: nat, enc: nat, from: nat, to: nat, i: nat)
    requires IsEncoding(enc) && from <= i < n && Offset(n, enc) <= |b| && Offset(to + (n - from), enc) <= |b|
    ensures Offset(i, enc) + enc <= |b|
    ensures Holds(Moved(b, n, enc, from, to), to + (i - from), enc, ValueAt(b, i, enc))
  {
    hide Unpack, Offset;
    OffsetOrder(i, n, enc);
    OffsetOrder(to + (i - from), to + (n - from), enc);
    OffsetDistance(from, to, i - from, enc);
    OffsetDistance(from, to, n - from, enc);
    OffsetWider(from, i, enc, enc);
    OffsetWider(to, to + (n - from), enc, enc);
    var start, first := Offset(i, enc), Offset(from, enc);
    var tail := b[first..Offset(n, enc)];
    SliceMiddle(b[..Offset(to, enc)], tail, b[Offset(to + (n - from), enc)..], start - first, start - first + enc);
    SliceSlice(b, first, Offset(n, enc), start - first, start - first + enc);
  }

  lemma MovedBefore(b: seq<byte>, n: nat, enc: nat, from: nat, to: nat, i: nat)
    requires IsEncoding(enc) && from <= n && i < to && Offset(n, enc) <= |b| && Offset(to + (n - from), enc) <= |b|
    ensures Offset(i, enc) + enc <= |b|
    ensures Holds(Moved(b, n, enc, from, to), i, enc, ValueAt(b, i, enc))
  {
    hide Unpack, Offset;
    OffsetOrder(i, to, enc);
    OffsetWider(to, to + (n - from), enc, enc);
    var start := Offset(i, enc);
    assert Moved(b, n, enc, from, to)[start..start + enc] == b[start..start + enc];
  }

  /** Making room at `pos` and storing there inserts the value. */
  lemma InsertedValues(b: seq<byte>, n: nat, enc: nat, pos: nat, value: int)
    requires IsEncoding(enc) && |b| == Offset(n + 1, enc) && pos <= n && Fits(value, enc)
    ensures Offset(n, enc) <= |b| && Offset(pos, enc) + enc <= |b|
    ensures var vs := Values(b, n, enc);
            Values(Stored(Moved(b, n, enc, pos, pos + 1), pos, enc, value), n + 1, enc)
            == vs[..pos] + [value] + vs[pos..]
  {
    hide Values, ValueAt, Offset, Fits, Moved, Stored;
    OffsetOrder(n, n + 1, enc);
    OffsetOrder(pos, n + 1, enc);
    var vs := Values(b, n, enc);
    var moved := Moved(b, n, enc, pos, pos + 1);
    var b' := Stored(moved, pos, enc, value);
    var all := vs[..pos] + [value] + vs[pos..];
    forall i: nat | i < n + 1
      ensures Offset(i, enc) + enc <= |b'| && ValueAt(b', i, enc) == all[i]
    {
      OffsetOrder(i, n + 1, enc);
      if i < pos {
        ValuesAt(b, n, enc, i);
        MovedBefore(b, n, enc, pos, pos + 1, i);
        StoredOther(moved, pos, enc, value, i);
      } else if i == pos {
        StoredSame(moved, pos, enc, value);
      } else {
        ValuesAt(b, n, enc, i - 1);
        MovedAt(b, n, enc, pos, pos + 1, i - 1);
        StoredOther(moved, pos, enc, value, i);
      }
    }
    ValuesAre(b', n + 1, enc, all);
  }

  /** Moving the tail over `pos` and cutting the end off removes the element. */
  lemma RemovedValues(b: seq<byte>, n: nat, enc: nat, pos: nat)
    requires IsEncoding(enc) && |b| == Offset(n, enc) && pos < n
    ensures Offset(n - 1, enc) <= |b|
    ensures var vs := Values(b, n, enc);
            Values(Moved(b, n, enc, pos + 1, pos)[..Offset(n - 1, enc)], n - 1, enc) == vs[..pos] + vs[pos + 1..]
  {
    hide Values, ValueAt, Offset, Moved;
    OffsetOrder(n - 1, n, enc);
    var vs := Values(b, n, enc);
    var moved := Moved(b, n, enc, pos + 1, pos);
    var b' := moved[..Offset(n - 1, enc)];
    var all := vs[..pos] + vs[pos + 1..];
    forall i: nat | i < n - 1
      ensures Offset(i, enc) + enc <= |b'| && ValueAt(b', i, enc) == all[i]
    {
      OffsetOrder(i, n - 1, enc);
      if i < pos {
        ValuesAt(b, n, enc, i);
        MovedBefore(b, n, enc, pos + 1, pos, i);
      } else {
        ValuesAt(b, n, enc, i + 1);
        MovedAt(b, n, enc, pos + 1, pos, i + 1);
      }
      assert b'[..Offset(i, enc) + enc] == moved[..Offset(i, enc) + enc];
      ValueKept(b', moved, i, enc);
    }
    ValuesAre(b', n - 1, enc, all);
  }

  // --- The set ---

  method Memmove(a: array<byte>, dst: nat, src: nat, n: nat)
    requires dst + n <= a.Length && src + n <= a.Length
    modifies a
    ensures a[..] == old(a[..])[..dst] + old(a[..])[src..src + n] + old(a[..])[dst + n..]
  {
    forall i | 0 <= i < n {
      a[dst + i] := a[src + i];
    }
  }

  lemma OffsetZero(enc: nat)
    requires IsEncoding(enc)
    ensures Offset(0, enc) == 0
  {
  }

  ghost function SetOf(vs: seq<int>): set<int> {
    set x | x in vs
  }

  class IntSet {
    var encoding: nat
    var length: nat
    var contents: array<byte>

    /** The block has room for exactly `length` elements. */
    predicate Allocated()
      reads this
    {
      IsEncoding(encoding) && contents.Length == Offset(length, encoding)
    }

    function Elements(): seq<int>
      requires Allocated()
      reads this, contents
    {
      Values(contents[..], length, encoding)
    }

    ghost function Members(): set<int>
      requires Allocated()
      reads this, contents
    {
      SetOf(Elements())
    }

    predicate Valid()
      reads this, contents
    {
      Allocated() && Increasing(Elements())
    }

    /** `intsetNew`. */
    constructor ()
      ensures Valid() && Elements() == [] && encoding == 2 && fresh(contents)
    {
      encoding, length := 2, 0;
      contents := new byte[0];
    }

    /** `_intsetGet`. */
    method Get(pos: nat) returns (v: int)
      requires Allocated() && pos < length
      ensures v == Elements()[pos]
    {
      ValuesAt(contents[..], length, encoding, pos);
      v := ValueAt(contents[..], pos, encoding);
    }

    /** `_intsetSet`. */
    method Set(pos: nat, value: int)
      requires IsEncoding(encoding) && Offset(pos, encoding) + encoding <= contents.Length && Fits(value, encoding)
      modifies contents
      ensures contents[..] == Stored(old(contents[..]), pos, encoding, value)
    {
      hide Pack;
      var off, b := Offset(pos, encoding), Pack(value, encoding);
      var i := 0;
      while i < encoding
        invariant 0 <= i <= encoding
        invariant forall q | 0 <= q < contents.Length ::
                    contents[q] == if off <= q < off + i then b[q - off] else old(contents[q])
      {
        contents[off + i] := b[i];
        i := i + 1;
      }
      assert contents[..] == old(contents[..])[..off] + b + old(contents[..])[off + encoding..];
    }

    /** `intsetResize`: a `realloc`, so the bytes that fit are kept. */
    method Resize(len: nat)
      requires IsEncoding(encoding)
      modifies this`contents
      ensures fresh(contents) && contents.Length == Offset(len, encoding)
      ensures forall i | 0 <= i < old(contents).Length && i < contents.Length :: contents[i] == old(contents[i])
    {
      var a, b := contents, new byte[Offset(len, encoding)];
      var i := 0;
      while i < b.Length && i < a.Length
        invariant 0 <= i <= b.Length && i <= a.Length
        invariant forall j | 0 <= j < i :: b[j] == a[j]
      {
        b[i] := a[i];
        i := i + 1;
      }
      contents := b;
    }

    /** `intsetSearch`: the place of the value, or the place where it belongs. */
    method Search(value: int) returns (found: bool, pos: nat)
      requires Valid()
      ensures pos <= length
      ensures found ==> pos < length && Elements()[pos] == value
      ensures !found ==> value !in Elements()
      ensures forall i | 0 <= i < pos :: Elements()[i] < value
      ensures forall i | pos <= i < length :: Elements()[i] >= value
    {
      hide Values, ValueAt;
      if length == 0 {
        return false, 0;
      }
      var last := Get(length - 1);
      if value > last {
        return false, length;
      }
      var first := Get(0);
      if value < first {
        return false, 0;
      }
      var min, max: int, mid, cur := 0, length - 1, 0, -1;
      while max >= min
        invariant 0 <= min <= max + 1 <= length
        invariant forall i | 0 <= i < min :: Elements()[i] < value
        invariant forall i | max < i < length :: Elements()[i] > value
        invariant (min == 0 && max == length - 1) || cur != value
      {
        mid := (min + max) / 2;
        cur := Get(mid);
        if value > cur {
          min := mid + 1;
        } else if value < cur {
          max := mid - 1;
        } else {
          break;
        }
      }
      if value == cur {
        return true, mid;
      }
      return false, min;
    }

    /** The widening loop of `intsetUpgradeAndAdd`, back to front. */
    method Widen(curenc: nat, shift: nat, ghost vs: seq<int>)
      requires IsEncoding(encoding) && IsEncoding(curenc) && curenc <= encoding && shift <= 1
      requires contents.Length == Offset(length + 1, encoding) && Offset(length, curenc) <= contents.Length
      requires vs == Values(contents[..], length, curenc) && AllFit(vs, encoding)
      modifies contents
      ensures Widened(contents[..], old(contents[..]), 0, length, curenc, encoding, shift, vs)
    {
      hide Widened, Values, ValueAt, Offset, Stored;
      ghost var b0 := contents[..];
      WidenStart(b0, length, curenc, encoding, shift, vs);
      var k := length;
      while k > 0
        invariant 0 <= k <= length && Widened(contents[..], b0, k, length, curenc, encoding, shift, vs)
      {
        k := k - 1;
        WidenStep(contents[..], b0, k, length, curenc, encoding, shift, vs);
        Set(k + shift, ValueAt(contents[..], k, curenc));
      }
    }

    /** `intsetUpgradeAndAdd`. */
    method UpgradeAndAdd(value: int)
      requires Valid() && Fits(value, 8) && ValueEncoding(value) > encoding
      modifies this, contents
      ensures Valid() && encoding == ValueEncoding(value) && fresh(contents)
      ensures Elements() == if value < 0 then [value] + old(Elements()) else old(Elements()) + [value]
    {
      hide Widened, Values, ValueAt, Offset, Stored, Fits, ValueEncoding;
      var curenc, newenc := encoding, ValueEncoding(value);
      var prepend := if value < 0 then 1 else 0;
      ghost var vs, b0 := Elements(), contents[..];
      WiderFacts(b0, length, curenc, value);
      encoding := newenc;
      Resize(length + 1);
      assert contents[..Offset(length, curenc)] == b0;
      ValuesPrefix(contents[..], b0, length, curenc);
      ghost var b1 := contents[..];
      Widen(curenc, prepend, vs);
      WidenLast(contents[..], b1, length, curenc, newenc, value, vs);
      if prepend == 1 {
        Set(0, value);
      } else {
        Set(length, value);
      }
      length := length + 1;
    }

    /** `intsetMoveTail`: one `memmove`. */
    method MoveTail(from: nat, to: nat)
      requires IsEncoding(encoding) && from <= length
      requires Offset(length, encoding) <= contents.Length && Offset(to + (length - from), encoding) <= contents.Length
      modifies contents
      ensures contents[..] == Moved(old(contents[..]), length, encoding, from, to)
    {
      hide Offset;
      OffsetDistance(0, from, length - from, encoding);
      OffsetDistance(0, to, length - from, encoding);
      OffsetZero(encoding);
      Memmove(contents, Offset(to, encoding), Offset(from, encoding), Offset(length - from, encoding));
    }

    /** `intsetAdd`: the set gains the value, unless it was there. */
    method Add(value: int) returns (success: bool)
      requires Valid() && Fits(value, 8)
      modifies this, contents
      ensures Valid() && (contents == old(contents) || fresh(contents))
      ensures Members() == old(Members()) + {value}
      ensures success == (value !in old(Elements()))
      ensures length == old(length) + if success then 1 else 0
      ensures encoding == if ValueEncoding(value) > old(encoding) then ValueEncoding(value) else old(encoding)
    {
      hide Values, ValueAt, Offset, Stored, Moved, Fits, ValueEncoding;
      ghost var vs := Elements();
      if ValueEncoding(value) > encoding {
        NotThere(contents[..], length, encoding, value);
        UpgradeAndAdd(value);
        return true;
      }
      var found, pos := Search(value);
      if found {
        return false;
      }
      FitsEncoding(value, encoding);
      InsertAt(pos, value);
      InsertIncreasing(vs, pos, value);
      return true;
    }

    /** The end of `intsetAdd`: make room at `pos` and store there. */
    method InsertAt(pos: nat, value: int)
      requires Allocated() && pos <= length && Fits(value, encoding)
      modifies this`length, this`contents
      ensures Allocated() && encoding == old(encoding) && length == old(length) + 1 && fresh(contents)
      ensures Elements() == old(Elements())[..pos] + [value] + old(Elements())[pos..]
    {
      hide Values, ValueAt, Offset, Stored, Moved, Fits;
      ghost var b0 := contents[..];
      OffsetOrder(length, length + 1, encoding);
      OffsetOrder(pos, length + 1, encoding);
      Resize(length + 1);
      ghost var b1 := contents[..];
      assert b1[..|b0|] == b0;
      ValuesPrefix(b1, b0, length, encoding);
      InsertedValues(b1, length, encoding, pos, value);
      if pos < length {
        MoveTail(pos, pos + 1);
      } else {
        MovedNothing(b1, length, encoding);
      }
      Set(pos, value);
      length := length + 1;
    }

    /** `intsetRemove`: the set loses the value, if it was there. */
    method Remove(value: int) returns (success: bool)
      requires Valid() && Fits(value, 8)
      modifies this, contents
      ensures Valid() && (contents == old(contents) || fresh(contents))
      ensures Members() == old(Members()) - {value}
      ensures success == (value in old(Elements()))
      ensures length == old(length) - if success then 1 else 0
      ensures encoding == old(encoding)
    {
      hide Values, ValueAt, Offset, Moved, Fits, ValueEncoding;
      ghost var vs := Elements();
      if ValueEncoding(value) > encoding {
        NotThere(contents[..], length, encoding, value);
        return false;
      }
      var found, pos := Search(value);
      if !found {
        return false;
      }
      RemoveAt(pos);
      RemoveIncreasing(vs, pos);
      return true;
    }

    /** The end of `intsetRemove`: move the tail over `pos` and shrink the block. */
    method RemoveAt(pos: nat)
      requires Allocated() && pos < length
      modifies this`length, this`contents, contents
      ensures Allocated() && encoding == old(encoding) && length == old(length) - 1 && fresh(contents)
      ensures Elements() == old(Elements())[..pos] + old(Elements())[pos + 1..]
    {
      hide Values, ValueAt, Offset, Moved;
      ghost var b0 := contents[..];
      var len := length;
      OffsetOrder(len - 1, len, encoding);
      RemovedValues(b0, len, encoding, pos);
      if pos < len - 1 {
        MoveTail(pos + 1, pos);
      } else {
        MovedEmpty(b0, len, encoding);
      }
      ghost var b1 := contents[..];
      Resize(len - 1);
      assert contents[..] == b1[..contents.Length];
      length := len - 1;
    }

    /** `intsetFind`. */
    method Find(value: int) returns (found: bool)
      requires Valid() && Fits(value, 8)
      ensures found == (value in Elements())
    {
      hide Values, Fits, ValueEncoding;
      if ValueEncoding(value) > encoding {
        NotThere(contents[..], length, encoding, value);
        return false;
      }
      var pos;
      found, pos := Search(value);
    }
  }

  lemma NotThere(b: seq<byte>, n: nat, enc: nat, value: int)
    requires IsEncoding(enc) && Offset(n, enc) <= |b| && Fits(value, 8) && ValueEncoding(value) > enc
    ensures value !in Values(b, n, enc)
  {
    hide Values, Offset;
    ValuesFit(b, n, enc);
  }

  lemma FitsEncoding(value: int, enc: nat)
    requires IsEncoding(enc) && Fits(value, 8) && ValueEncoding(value) <= enc
    ensures Fits(value, enc)
  {
  }

  lemma InsertIncreasing(vs: seq<int>, pos: nat, value: int)
    requires Increasing(vs) && pos <= |vs| && value !in vs
    requires forall i | 0 <= i < pos :: vs[i] < value
    requires forall i | pos <= i < |vs| :: vs[i] >= value
    ensures Increasing(vs[..pos] + [value] + vs[pos..])
    ensures SetOf(vs[..pos] + [value] + vs[pos..]) == SetOf(vs) + {value}
  {
    var all := vs[..pos] + [value] + vs[pos..];
    assert forall i | pos <= i < |vs| :: vs[i] != value;
    assert vs == vs[..pos] + vs[pos..];
  }

  lemma RemoveIncreasing(vs: seq<int>, pos: nat)
    requires Increasing(vs) && pos < |vs|
    ensures Increasing(vs[..pos] + vs[pos + 1..])
    ensures SetOf(vs[..pos] + vs[pos + 1..]) == SetOf(vs) - {vs[pos]}
  {
    assert vs == vs[..pos] + [vs[pos]] + vs[pos + 1..];
    var rest := vs[..pos] + vs[pos + 1..];
    assert forall i | 0 <= i < |rest| :: rest[i] != vs[pos];
  }

  lemma MovedNothing(b: seq<byte>, n: nat, enc: nat)
    requires IsEncoding(enc) && Offset(n + 1, enc) <= |b|
    ensures Offset(n, enc) <= |b| && Moved(b, n, enc, n, n + 1) == b
  {
  }

  lemma MovedEmpty(b: seq<byte>, n: nat, enc: nat)
    requires IsEncoding(enc) && n > 0 && Offset(n, enc) <= |b|
    ensures Offset(n - 1, enc) <= |b| && Moved(b, n, enc, n, n - 1) == b
  {
  }

  lemma WiderFacts(b: seq<byte>, n: nat, enc: nat, value: int)
    requires IsEncoding(enc) && |b| == Offset(n, enc) && Increasing(Values(b, n, enc))
    requires Fits(value, 8) && ValueEncoding(value) > enc
    ensures var vs, wider := Values(b, n, enc), ValueEncoding(value);
            && AllFit(vs, wider) && Fits(value, wider) && Offset(n, enc) <= Offset(n + 1, wider)
            && Increasing(if value < 0 then [value] + vs else vs + [value])
  {
    var vs := Values(b, n, enc);
    ValuesFit(b, n, enc);
    WiderIsExtreme(vs, enc, value);
    OffsetWider(n, n + 1, enc, ValueEncoding(value));
  }

  lemma WidenStart(b0: seq<byte>, n: nat, enc: nat, wider: nat, shift: nat, vs: seq<int>)
    requires IsEncoding(enc) && IsEncoding(wider) && |b0| == Offset(n + 1, wider) && Offset(n, enc) <= |b0| && |vs| == n
    ensures Widened(b0, b0, n, n, enc, wider, shift, vs)
  {
  }

  lemma ValuesPrefix(b: seq<byte>, b0: seq<byte>, n: nat, enc: nat)
    requires IsEncoding(enc) && |b0| == Offset(n, enc) <= |b| && b[..|b0|] == b0
    ensures Values(b, n, enc) == Values(b0, n, enc)
  {
    hide Values, ValueAt, Offset;
    forall i: nat | i < n
      ensures Offset(i, enc) + enc <= |b| && ValueAt(b, i, enc) == Values(b0, n, enc)[i]
    {
      OffsetOrder(i, n, enc);
      ValuesAt(b0, n, enc, i);
      assert b[..Offset(i, enc) + enc] == b0[..Offset(i, enc) + enc];
      ValueKept(b, b0, i, enc);
    }
    ValuesAre(b, n, enc, Values(b0, n, enc));
  }
}
