/**
 `lzf_compress` and `lzf_decompress`. The compressor's hash table is not initialised,
 so nothing is known about what it holds at the start; the round trip holds all the same.
 */
module Lzf {
  import opened Common
  import opened LzfFormat

  datatype Errno = NoError | E2BIG | EINVAL

  // --- The decompressor ---

  /** `do *op++ = *ip++; while (--ctrl);` */
  method CopyLiterals(inp: seq<byte>, ip: nat, out: array<byte>, op: nat, n: nat)
    requires ip + n <= |inp| && op + n <= out.Length
    modifies out
    ensures out[..op + n] == old(out[..op]) + inp[ip..ip + n]
    ensures forall k | op + n <= k < out.Length :: out[k] == old(out[k])
  {
    var i := 0;
    while i < n
      invariant 0 <= i <= n
      invariant out[..op] == old(out[..op])
      invariant out[op..op + i] == inp[ip..ip + i]
      invariant forall k | op + n <= k < out.Length :: out[k] == old(out[k])
    {
      out[op + i] := inp[ip + i];
      assert inp[ip..ip + i + 1] == inp[ip..ip + i] + [inp[ip + i]];
      assert out[op..op + i + 1] == out[op..op + i] + [out[op + i]];
      i := i + 1;
    }
    assert out[..op + n] == out[..op] + out[op..op + n];
  }

  lemma {:induction false} CopySnoc(s: seq<byte>, dist: nat, n: nat)
    requires 1 <= dist <= |s|
    ensures Copy(s, dist, n + 1) == Copy(s, dist, n) + [Copy(s, dist, n)[|s| + n - dist]]
    decreases n
  {
    if n > 0 {
      CopySnoc(s + [s[|s| - dist]], dist, n - 1);
    }
  }

  /** `do *op++ = *ref++; while (--len);`, the two first copies included. */
  method CopyReference(out: array<byte>, ref: nat, op: nat, n: nat)
    requires ref < op && op + n <= out.Length
    modifies out
    ensures out[..op + n] == Copy(old(out[..op]), op - ref, n)
    ensures forall k | op + n <= k < out.Length :: out[k] == old(out[k])
  {
    ghost var s := out[..op];
    var i := 0;
    while i < n
      invariant 0 <= i <= n
      invariant out[..op + i] == Copy(s, op - ref, i)
      invariant forall k | op + n <= k < out.Length :: out[k] == old(out[k])
    {
      CopySnoc(s, op - ref, i);
      out[op + i] := out[ref + i];
      assert out[..op + i + 1] == out[..op + i] + [out[op + i]];
      i := i + 1;
    }
  }

  /** The back reference case of the decoder's loop. */
  method DecodeReference(inp: seq<byte>, ip: nat, out: array<byte>, op: nat, outLen: nat)
    returns (ip': nat, op': nat, errno: Errno)
    requires ip < |inp| && inp[ip] >= 32 && op <= outLen <= out.Length
    modifies out
    ensures match DecodeStep(inp, ip, old(out[..op]), outLen)
            case Next(i, o) => ip' == i && op' == |o| && out[..op'] == o && errno == NoError
            case Fail(TooBig) => errno == E2BIG
            case Fail(_) => errno == EINVAL
    ensures forall k | outLen <= k < out.Length :: out[k] == old(out[k])
  {
    var ctrl: int := inp[ip];
    ip', op' := ip + 1, op;
    var len := ctrl / 32;
    var ref := op - (ctrl % 32) * 256 - 1;
    if ip' >= |inp| {
      return ip', op', EINVAL;
    }
    if len == 7 {
      len := len + inp[ip'] as int;
      ip' := ip' + 1;
      if ip' >= |inp| {
        return ip', op', EINVAL;
      }
    }
    ref := ref - inp[ip'] as int;
    ip' := ip' + 1;
    if op + len + 2 > outLen {
      return ip', op', E2BIG;
    }
    if ref < 0 {
      return ip', op', EINVAL;
    }
    CopyReference(out, ref, op, len + 2);
    return ip', op + len + 2, NoError;
  }

  /** One iteration of the decoder's loop. */
  method DecodeToken(inp: seq<byte>, ip: nat, out: array<byte>, op: nat, outLen: nat)
    returns (ip': nat, op': nat, errno: Errno)
    requires ip < |inp| && op <= outLen <= out.Length
    modifies out
    ensures match DecodeStep(inp, ip, old(out[..op]), outLen)
            case Next(i, o) => ip' == i && op' == |o| && out[..op'] == o && errno == NoError
            case Fail(TooBig) => errno == E2BIG
            case Fail(_) => errno == EINVAL
    ensures forall k | outLen <= k < out.Length :: out[k] == old(out[k])
  {
    if inp[ip] >= 32 {
      ip', op', errno := DecodeReference(inp, ip, out, op, outLen);
      return;
    }
    var ctrl: int := inp[ip] as int + 1;
    ip', op' := ip + 1, op;
    if op + ctrl > outLen {
      return ip', op', E2BIG;
    }
    if ip' + ctrl > |inp| {
      return ip', op', EINVAL;
    }
    CopyLiterals(inp, ip', out, op, ctrl);
    return ip' + ctrl, op + ctrl, NoError;
  }

  /** `lzf_decompress`: total on non-empty input, and exactly the decoding of the format. */
  method Decompress(inp: seq<byte>, out: array<byte>, outLen: nat) returns (n: nat, errno: Errno)
    requires |inp| > 0 && outLen <= out.Length
    modifies out
    ensures match Decode(inp, outLen)
            case Ok(o) => n == |o| <= outLen && out[..n] == o && errno == NoError
            case TooBig => n == 0 && errno == E2BIG
            case Invalid => n == 0 && errno == EINVAL
    ensures forall k | outLen <= k < out.Length :: out[k] == old(out[k])
  {
    hide DecodeStep;
    var ip, op := 0, 0;
    assert out[..0] == [];
    while ip < |inp|
      invariant 0 <= ip <= |inp| && 0 <= op <= outLen
      invariant DecodeFrom(inp, ip, out[..op], outLen) == Decode(inp, outLen)
      invariant forall k | outLen <= k < out.Length :: out[k] == old(out[k])
      decreases |inp| - ip
    {
      ip, op, errno := DecodeToken(inp, ip, out, op, outLen);
      if errno != NoError {
        return 0, errno;
      }
    }
    return op, NoError;
  }

  // --- The compressor ---

  const HSIZE: nat := 65536
  const U32: nat := 0x1_0000_0000
  const U64: nat := 0x1_0000_0000_0000_0000

  /** An address, as found in the hash table. */
  type Address = x: int | 0 <= x < U64

  /** `NEXT(v, p)`, on 32-bit unsigned integers. */
  function NextHash(hval: nat, c: byte): (h: nat)
    ensures h < U32
  {
    (hval * 256 + c as int) % U32
  }

  /** `IDX(h)` with `VERY_FAST` and `HLOG == 16`. */
  function Idx(h: nat): (i: nat)
    ensures i < HSIZE
  {
    (h / 256 - h * 5) % HSIZE
  }

  /** The slot of the hash table for three bytes. */
  function Slot(a: byte, b: byte, c: byte): (i: nat)
    ensures i < HSIZE
  {
    ((a as int * 256 + b as int) - 5 * (b as int * 256 + c as int)) % HSIZE
  }

  function SlotAt(inp: seq<byte>, p: nat): (i: nat)
    requires p + 2 < |inp|
    ensures i < HSIZE
  {
    Slot(inp[p], inp[p + 1], inp[p + 2])
  }

  /** The hash value holds the two bytes before the next one in its low half. */
  predicate Holds(hval: nat, a: byte, b: byte) {
    hval % 65536 == a as int * 256 + b as int
  }

  lemma ByteRemainder(m: int, y: nat)
    requires y < 256
    ensures (m * 256 + y) / 256 == m
  {
  }

  lemma HalfRemainder(m: int, y: nat)
    requires y < 65536
    ensures (m * 65536 + y) % 65536 == y
  {
  }

  lemma WordRemainder(m: int, y: nat)
    requires y < U32
    ensures (m * U32 + y) % U32 == y
  {
  }

  lemma NextHashIs(hval: nat, c: byte)
    ensures NextHash(hval, c) == (hval / 65536 % 256) * 0x100_0000 + (hval % 65536) * 256 + c as int
  {
    var q := hval / 65536;
    var y := (q % 256) * 0x100_0000 + (hval % 65536) * 256 + c as int;
    assert hval == q / 256 * 0x100_0000 + (q % 256) * 65536 + hval % 65536;
    assert hval * 256 + c as int == q / 256 * U32 + y;
    WordRemainder(q / 256, y);
  }

  lemma SameSlot(h: int, k: int, a: byte, b: byte, c: byte)
    requires h == k * 0x100_0000 + (a as int * 256 + b as int) * 256 + c as int
    ensures h / 256 == k * 65536 + (a as int * 256 + b as int)
    ensures (h / 256 - h * 5) % HSIZE == Slot(a, b, c)
  {
    var w := a as int * 256 + b as int;
    ByteRemainder(k * 65536 + w, c);
    var low := w - 5 * (b as int * 256 + c as int);
    var m := k - 1280 * k - 5 * a as int;
    assert h / 256 - h * 5 == low + m * HSIZE;
    HalfRemainder(low / HSIZE + m, low % HSIZE);
  }

  /** The hash depends on the last three bytes only. */
  lemma HashIs(hval: nat, a: byte, b: byte, c: byte)
    requires Holds(hval, a, b)
    ensures Idx(NextHash(hval, c)) == Slot(a, b, c) && Holds(NextHash(hval, c), b, c)
  {
    hide NextHash, Slot;
    var k := hval / 65536 % 256;
    var h := NextHash(hval, c);
    NextHashIs(hval, c);
    SameSlot(h, k, a, b, c);
    HalfRemainder(k * 256 + a as int, b as int * 256 + c as int);
  }

  // --- Which repetitions are found ---

  function Length(ts: seq<Token>): nat {
    if ts == [] then 0
    else Length(ts[..|ts| - 1]) + match ts[|ts| - 1] case Lit(run) => |run| case Ref(_, len) => len
  }

  /** The positions of the text that are stored as literals. */
  function Literals(ts: seq<Token>): set<nat> {
    if ts == [] then {}
    else
      var rest := ts[..|ts| - 1];
      Literals(rest) + if ts[|ts| - 1].Lit? then Range(Length(rest), Length(ts)) else {}
  }

  /** The positions that enter the hash table: all literals, and of a reference the first and the last two. */
  function Hashed(ts: seq<Token>): set<nat> {
    if ts == [] then {}
    else
      var rest := ts[..|ts| - 1];
      var from, to := Length(rest), Length(ts);
      Hashed(rest) + if ts[|ts| - 1].Lit? then Range(from, to) else Ends(from, to)
  }

  predicate Within(p: nat, from: nat, to: nat) {
    from <= p < to
  }

  function Range(from: nat, to: nat): set<nat> {
    set p: nat | p < to && Within(p, from, to)
  }

  function Ends(from: nat, to: nat): set<nat> {
    set p: nat | p < to && Within(p, from, to) && (p == from || to - 2 <= p)
  }

  predicate SameThree(inp: seq<byte>, p: nat, q: nat) {
    p + 2 < |inp| && q + 2 < |inp| && inp[p] == inp[q] && inp[p + 1] == inp[q + 1] && inp[p + 2] == inp[q + 2]
  }

  /** A hashed position between `r` and `p` has taken the slot of `p` for other bytes. */
  ghost predicate Displaced(inp: seq<byte>, hashed: set<nat>, r: nat, p: nat)
    requires p + 2 < |inp|
  {
    exists q :: q in hashed && r < q < p && SlotAt(inp, q) == SlotAt(inp, p) && !SameThree(inp, q, p)
  }

  /** The position can be stored as a literal: no hashed repetition of its bytes is left within reach. */
  ghost predicate NothingToReference(inp: seq<byte>, hashed: set<nat>, p: nat) {
    p + 4 < |inp| ==>
      forall r | r in hashed && 0 < r < p <= r + MAX_OFF && SameThree(inp, r, p) :: Displaced(inp, hashed, r, p)
  }

  /** No literal misses a repetition that the hash table has. */
  ghost predicate Thorough(inp: seq<byte>, ts: seq<Token>) {
    forall p | p in Literals(ts) :: NothingToReference(inp, Hashed(ts), p)
  }

  /** A reference at `p` that is as long as it can be, up to two bytes before the end. */
  predicate Longest(inp: seq<byte>, p: nat, off: nat, len: nat) {
    len == MAX_REF || p + len + 2 >= |inp| || (off < p + len && inp[p + len] != inp[p + len - off - 1])
  }

  predicate AllLongest(inp: seq<byte>, ts: seq<Token>) {
    ts == [] ||
    var rest, t := ts[..|ts| - 1], ts[|ts| - 1];
    AllLongest(inp, rest) && (t.Ref? ==> Longest(inp, Length(rest), t.off, t.len))
  }

  /** The tokens with the current run as a last one. */
  function Open(inp: seq<byte>, ip: nat, lit: nat, ts: seq<Token>): seq<Token>
    requires lit <= ip <= |inp|
  {
    if lit == 0 then ts else ts + [Lit(inp[ip - lit..ip])]
  }

  lemma Appended(inp: seq<byte>, ts: seq<Token>, t: Token)
    ensures var from, to := Length(ts), Length(ts + [t]);
            && to == from + (match t case Lit(run) => |run| case Ref(_, len) => len)
            && Literals(ts + [t]) == Literals(ts) + (if t.Lit? then Range(from, to) else {})
            && Hashed(ts + [t])
               == Hashed(ts) + (if t.Lit? then Range(from, to) else Ends(from, to))
            && (AllLongest(inp, ts + [t]) <==> AllLongest(inp, ts) && (t.Ref? ==> Longest(inp, from, t.off, t.len)))
  {
    assert (ts + [t])[..|ts|] == ts;
  }

  lemma {:induction false} LengthIsOutput(ts: seq<Token>)
    requires Decodable(ts)
    ensures Length(ts) == |Output(ts)|
  {
    if ts != [] {
      LengthIsOutput(ts[..|ts| - 1]);
    }
  }

  lemma {:induction false} HashedBelow(ts: seq<Token>, p: nat)
    requires p in Hashed(ts) || p in Literals(ts)
    ensures p < Length(ts)
  {
    if ts != [] {
      var rest := ts[..|ts| - 1];
      if p in Hashed(rest) || p in Literals(rest) {
        HashedBelow(rest, p);
      }
    }
  }

  /** Adding positions from `n` on does not concern positions before `n`. */
  lemma StillNothing(inp: seq<byte>, hashed: set<nat>, more: set<nat>, p: nat, n: nat)
    requires NothingToReference(inp, hashed, p) && p < n && forall q | q in more :: n <= q
    ensures NothingToReference(inp, hashed + more, p)
  {
    if p + 4 < |inp| {
      forall r | r in hashed + more && 0 < r < p <= r + MAX_OFF && SameThree(inp, r, p)
        ensures Displaced(inp, hashed + more, r, p)
      {
        assert r in hashed;
        assert Displaced(inp, hashed, r, p);
        var q :| q in hashed && r < q < p && SlotAt(inp, q) == SlotAt(inp, p) && !SameThree(inp, q, p);
        assert q in hashed + more;
      }
    }
  }

  /** A reference keeps the stream thorough, and so does a literal with nothing to reference. */
  lemma ThoroughAppend(inp: seq<byte>, ts: seq<Token>, ts': seq<Token>, lits: set<nat>, more: set<nat>, n: nat)
    requires Thorough(inp, ts) && Literals(ts') == Literals(ts) + lits && Hashed(ts') == Hashed(ts) + more
    requires n == Length(ts) && forall q | q in more :: n <= q
    requires forall p | p in lits :: NothingToReference(inp, Hashed(ts), p) && p == n
    ensures Thorough(inp, ts')
  {
    hide NothingToReference, Literals, Hashed;
    forall p | p in Literals(ts')
      ensures NothingToReference(inp, Hashed(ts'), p)
    {
      if p in Literals(ts) {
        HashedBelow(ts, p);
        StillNothing(inp, Hashed(ts), more, p, n);
      } else {
        NothingAtEnd(inp, Hashed(ts), more, p);
      }
    }
  }

  lemma NothingAtEnd(inp: seq<byte>, hashed: set<nat>, more: set<nat>, p: nat)
    requires NothingToReference(inp, hashed, p) && forall q | q in more :: p <= q
    ensures NothingToReference(inp, hashed + more, p)
  {
    if p + 4 < |inp| {
      forall r | r in hashed + more && 0 < r < p <= r + MAX_OFF && SameThree(inp, r, p)
        ensures Displaced(inp, hashed + more, r, p)
      {
        assert r in hashed;
        assert Displaced(inp, hashed, r, p);
        var q :| q in hashed && r < q < p && SlotAt(inp, q) == SlotAt(inp, p) && !SameThree(inp, q, p);
        assert q in hashed + more;
      }
    }
  }

  /**
   The state of the compressor: the tokens written so far stand for the input up to the
   current literal run, and the run itself follows the byte reserved for its header.
   */
  ghost predicate Writing(inp: seq<byte>, o: seq<byte>, ip: nat, op: nat, lit: nat, ts: seq<Token>) {
    && lit < MAX_LIT
    && lit <= ip <= |inp|
    && lit + 1 <= op <= |o|
    && Decodable(ts)
    && EncodeAll(ts) == o[..op - lit - 1]
    && Output(ts) == inp[..ip - lit]
    && o[op - lit..op] == inp[ip - lit..ip]
  }

  /** Literals are stored only where the table has nothing better, and references are as long as can be. */
  ghost predicate Greedy(inp: seq<byte>, ts: seq<Token>) {
    Thorough(inp, ts) && AllLongest(inp, ts)
  }

  /** The address is that of a hashed position of the slot. */
  ghost predicate OfSlot(inp: seq<byte>, base: nat, hashed: set<nat>, slot: nat, ref: Address) {
    exists p :: p in hashed && p + 2 < |inp| && SlotAt(inp, p) == slot && ref == base + p
  }

  /** The slot of every hashed position holds it, or a later hashed position of the same slot. */
  ghost predicate Knows(inp: seq<byte>, base: nat, htab: seq<Address>, hashed: set<nat>)
    requires |htab| == HSIZE
  {
    forall q | q in hashed ::
      && q + 2 < |inp| && base + q <= htab[SlotAt(inp, q)]
      && OfSlot(inp, base, hashed, SlotAt(inp, q), htab[SlotAt(inp, q)])
  }

  lemma OfSlotMore(inp: seq<byte>, base: nat, hashed: set<nat>, slot: nat, ref: Address, p: nat)
    requires OfSlot(inp, base, hashed, slot, ref)
    ensures OfSlot(inp, base, hashed + {p}, slot, ref)
  {
    var q :| q in hashed && q + 2 < |inp| && SlotAt(inp, q) == slot && ref == base + q;
    assert q in hashed + {p};
  }

  lemma KnowsMore(inp: seq<byte>, base: nat, htab: seq<Address>, hashed: set<nat>, p: nat)
    requires |htab| == HSIZE && Knows(inp, base, htab, hashed) && p + 2 < |inp| && base + |inp| < U64
    requires forall q | q in hashed :: q < p
    ensures Knows(inp, base, htab[SlotAt(inp, p) := base + p], hashed + {p})
  {
    var htab', hashed' := htab[SlotAt(inp, p) := base + p], hashed + {p};
    assert OfSlot(inp, base, hashed', SlotAt(inp, p), base + p) by {
      assert p in hashed';
    }
    hide SlotAt, OfSlot;
    forall q | q in hashed'
      ensures q + 2 < |inp| && base + q <= htab'[SlotAt(inp, q)]
      ensures OfSlot(inp, base, hashed', SlotAt(inp, q), htab'[SlotAt(inp, q)])
    {
      if q != p && SlotAt(inp, q) != SlotAt(inp, p) {
        assert q in hashed;
        OfSlotMore(inp, base, hashed, SlotAt(inp, q), htab[SlotAt(inp, q)], p);
      }
    }
  }

  /** The address is that of a place within reach where the next three bytes occur. */
  ghost predicate Usable(inp: seq<byte>, base: nat, ip: nat, ref: Address) {
    ip + 4 < |inp| && base < ref < base + ip <= ref + MAX_OFF && Repeats(inp, ip, base + ip - ref, 3)
  }

  lemma SameThreeSlot(inp: seq<byte>, p: nat, q: nat)
    requires SameThree(inp, p, q)
    ensures SlotAt(inp, p) == SlotAt(inp, q)
  {
  }

  lemma SameThreeRepeats(inp: seq<byte>, p: nat, q: nat)
    requires p < q
    ensures SameThree(inp, p, q) <==> Repeats(inp, q, q - p, 3)
  {
    var dist := q - p;
    if Repeats(inp, q, dist, 3) {
      assert inp[q] == inp[q - dist] && inp[q + 1] == inp[q + 1 - dist] && inp[q + 2] == inp[q + 2 - dist];
    }
    if SameThree(inp, p, q) {
      forall k | q <= k < q + 3
        ensures inp[k] == inp[k - dist]
      {
        assert k == q || k == q + 1 || k == q + 2;
      }
    }
  }

  /** If what the table has at the slot of `ip` is not usable, then there is nothing to reference. */
  lemma NotUsable(inp: seq<byte>, base: nat, htab: seq<Address>, hashed: set<nat>, ip: nat)
    requires |htab| == HSIZE && Knows(inp, base, htab, hashed) && ip + 2 < |inp|
    requires (forall q | q in hashed :: q < ip) && !Usable(inp, base, ip, htab[SlotAt(inp, ip)])
    ensures NothingToReference(inp, hashed, ip)
  {
    hide Slot, SlotAt, SameThree, Repeats;
    if ip + 4 < |inp| {
      forall r | r in hashed && 0 < r < ip <= r + MAX_OFF && SameThree(inp, r, ip)
        ensures Displaced(inp, hashed, r, ip)
      {
        SameThreeSlot(inp, r, ip);
        assert OfSlot(inp, base, hashed, SlotAt(inp, r), htab[SlotAt(inp, r)]);
        var q :| q in hashed && q + 2 < |inp| && SlotAt(inp, q) == SlotAt(inp, ip) && htab[SlotAt(inp, ip)] == base + q;
        assert r <= q < ip;
        SameThreeRepeats(inp, q, ip);
      }
    }
  }

  lemma GreedyLiteral(inp: seq<byte>, ip: nat, lit: nat, ts: seq<Token>)
    requires lit <= ip < |inp|
    requires var o := Open(inp, ip, lit, ts);
             Greedy(inp, o) && Length(o) == ip && NothingToReference(inp, Hashed(o), ip)
    ensures var o, o' := Open(inp, ip, lit, ts), ts + [Lit(inp[ip - lit..ip + 1])];
            Greedy(inp, o') && Length(o') == ip + 1 && Hashed(o') == Hashed(o) + {ip}
  {
    hide Thorough, Hashed, Literals, Length, NothingToReference, AllLongest, Longest;
    var o, o' := Open(inp, ip, lit, ts), ts + [Lit(inp[ip - lit..ip + 1])];
    Appended(inp, ts, Lit(inp[ip - lit..ip + 1]));
    if lit > 0 {
      Appended(inp, ts, Lit(inp[ip - lit..ip]));
    }
    var from := Length(ts);
    assert from == ip - lit;
    assert Range(from, ip + 1) == Range(from, ip) + {ip};
    assert lit == 0 ==> Range(from, ip) == {};
    assert Hashed(o') == Hashed(o) + {ip};
    assert Literals(o') == Literals(o) + {ip};
    ThoroughAppend(inp, o, o', {ip}, {ip}, ip);
  }

  lemma GreedyReference(inp: seq<byte>, o: seq<Token>, ip: nat, off: nat, len: nat)
    requires Greedy(inp, o) && Length(o) == ip && Longest(inp, ip, off, len) && len >= 3
    ensures var o' := o + [Ref(off, len)];
            Greedy(inp, o') && Length(o') == ip + len && Hashed(o') == Hashed(o) + {ip} + {ip + len - 2} + {ip + len - 1}
  {
    hide Thorough, Hashed, Literals, Length, NothingToReference, AllLongest, Longest;
    var o' := o + [Ref(off, len)];
    Appended(inp, o, Ref(off, len));
    var ends := Ends(ip, ip + len);
    assert ends == {ip} + {ip + len - 2} + {ip + len - 1};
    assert Literals(o') == Literals(o) + {};
    ThoroughAppend(inp, o, o', {}, ends, ip);
  }

  ghost predicate GreedySoFar(inp: seq<byte>, ip: nat, lit: nat, ts: seq<Token>) {
    lit <= ip <= |inp| && Greedy(inp, Open(inp, ip, lit, ts)) && Length(Open(inp, ip, lit, ts)) == ip
  }

  lemma GreedyNext(inp: seq<byte>, ip: nat, lit: nat, ts: seq<Token>, lit': nat, ts': seq<Token>)
    requires GreedySoFar(inp, ip, lit, ts) && ip < |inp| && NothingToReference(inp, Hashed(Open(inp, ip, lit, ts)), ip)
    requires lit' <= ip + 1 && Open(inp, ip + 1, lit', ts') == ts + [Lit(inp[ip - lit..ip + 1])]
    ensures GreedySoFar(inp, ip + 1, lit', ts')
    ensures Hashed(Open(inp, ip + 1, lit', ts')) == Hashed(Open(inp, ip, lit, ts)) + {ip}
  {
    hide Greedy, Length, Hashed, Open, NothingToReference;
    GreedyLiteral(inp, ip, lit, ts);
  }

  lemma GreedyTail(inp: seq<byte>, ip: nat, lit: nat, ts: seq<Token>, lit': nat, ts': seq<Token>)
    requires GreedySoFar(inp, ip, lit, ts) && ip < |inp| <= ip + 4
    requires lit' <= ip + 1 && Open(inp, ip + 1, lit', ts') == ts + [Lit(inp[ip - lit..ip + 1])]
    ensures GreedySoFar(inp, ip + 1, lit', ts')
  {
    hide Greedy, Length, Hashed, Open;
    GreedyNext(inp, ip, lit, ts, lit', ts');
  }

  lemma GreedyStopped(inp: seq<byte>, ip: nat, lit: nat, ts: seq<Token>)
    requires GreedySoFar(inp, ip, lit, ts)
    ensures Greedy(inp, Open(inp, ip, lit, ts))
  {
  }

  /** Between the iterations: the tokens so far are greedy, and the table knows the positions they have hashed. */
  ghost predicate Scanning(inp: seq<byte>, base: nat, htab: seq<Address>, hval: nat, ip: nat, lit: nat, ts: seq<Token>) {
    && |htab| == HSIZE && lit <= ip <= |inp|
    && (ip + 1 < |inp| ==> Holds(hval, inp[ip], inp[ip + 1]))
    && GreedySoFar(inp, ip, lit, ts) && Knows(inp, base, htab, Hashed(Open(inp, ip, lit, ts)))
  }

  lemma AllBelow(ts: seq<Token>, n: nat)
    requires Length(ts) == n
    ensures forall q | q in Hashed(ts) :: q < n
  {
    forall q | q in Hashed(ts)
      ensures q < n
    {
      HashedBelow(ts, q);
    }
  }

  lemma ScanLiteral(
    inp: seq<byte>, base: nat, htab: seq<Address>, hval: nat, ip: nat, lit: nat, ts: seq<Token>, lit': nat,
    ts': seq<Token>)
    requires Scanning(inp, base, htab, hval, ip, lit, ts) && ip + 2 < |inp| && base + |inp| < U64
    requires !Usable(inp, base, ip, htab[SlotAt(inp, ip)])
    requires lit' <= ip + 1 && Open(inp, ip + 1, lit', ts') == ts + [Lit(inp[ip - lit..ip + 1])]
    ensures Scanning(inp, base, htab[SlotAt(inp, ip) := base + ip], NextHash(hval, inp[ip + 2]), ip + 1, lit', ts')
    ensures GreedySoFar(inp, ip + 1, lit', ts')
  {
    hide Greedy, Length, Hashed, Usable, Knows, NothingToReference, Idx, NextHash, SlotAt, Open, Holds;
    var o := Open(inp, ip, lit, ts);
    AllBelow(o, ip);
    NotUsable(inp, base, htab, Hashed(o), ip);
    hide GreedySoFar;
    GreedyNext(inp, ip, lit, ts, lit', ts');
    KnowsMore(inp, base, htab, Hashed(o), ip);
    HashIs(hval, inp[ip], inp[ip + 1], inp[ip + 2]);
  }

  lemma ScanMatch(
    inp: seq<byte>, base: nat, htab: seq<Address>, hval: nat, ip: nat, lit: nat, ts: seq<Token>, off: nat, len: nat,
    hval': nat)
    requires Scanning(inp, base, htab, hval, ip, lit, ts) && base + |inp| < U64
    requires Longest(inp, ip, off, len) && len >= 3 && ip + len + 2 < |inp|
    requires Holds(hval', inp[ip + len], inp[ip + len + 1])
    ensures var ip' := ip + len;
            var h1 := htab[SlotAt(inp, ip) := base + ip];
            var h2 := h1[SlotAt(inp, ip' - 2) := base + ip' - 2];
            var h3 := h2[SlotAt(inp, ip' - 1) := base + ip' - 1];
            Scanning(inp, base, h3, hval', ip', 0, Open(inp, ip, lit, ts) + [Ref(off, len)])
  {
    hide Greedy, Length, Hashed, Knows, SlotAt, Holds, Longest, Open;
    var o, ip' := Open(inp, ip, lit, ts), ip + len;
    AllBelow(o, ip);
    GreedyReference(inp, o, ip, off, len);
    KnowsThree(inp, base, htab, Hashed(o), ip, ip' - 2, ip' - 1);
    OpenNone(inp, ip', o + [Ref(off, len)]);
  }

  lemma OpenNone(inp: seq<byte>, ip: nat, ts: seq<Token>)
    requires ip <= |inp|
    ensures Open(inp, ip, 0, ts) == ts
  {
  }

  lemma KnowsThree(inp: seq<byte>, base: nat, htab: seq<Address>, hashed: set<nat>, p: nat, q: nat, r: nat)
    requires |htab| == HSIZE && Knows(inp, base, htab, hashed) && base + |inp| < U64
    requires p < q < r && r + 2 < |inp| && forall x | x in hashed :: x < p
    ensures var h1 := htab[SlotAt(inp, p) := base + p];
            var h2 := h1[SlotAt(inp, q) := base + q];
            Knows(inp, base, h2[SlotAt(inp, r) := base + r], hashed + {p} + {q} + {r})
  {
    hide Knows, SlotAt;
    var h1 := htab[SlotAt(inp, p) := base + p];
    var h2 := h1[SlotAt(inp, q) := base + q];
    KnowsMore(inp, base, htab, hashed, p);
    KnowsMore(inp, base, h1, hashed + {p}, q);
    KnowsMore(inp, base, h2, hashed + {p} + {q}, r);
  }

  // --- A text of equal bytes ---

  predicate AllEqual(inp: seq<byte>) {
    inp != [] && forall i | 0 <= i < |inp| :: inp[i] == inp[0]
  }

  lemma {:induction false} LastHashed(ts: seq<Token>)
    requires Length(ts) > 0
    ensures Length(ts) - 1 in Hashed(ts)
  {
    if ts != [] {
      var rest := ts[..|ts| - 1];
      if Length(rest) == Length(ts) {
        LastHashed(rest);
      }
    }
  }

  /** From the third position on, the byte before is a match. */
  lemma EqualFound(inp: seq<byte>, base: nat, htab: seq<Address>, hval: nat, ip: nat, lit: nat, ts: seq<Token>)
    requires AllEqual(inp) && Scanning(inp, base, htab, hval, ip, lit, ts) && 2 <= ip && ip + 4 < |inp|
    ensures Usable(inp, base, ip, htab[SlotAt(inp, ip)])
  {
    hide Greedy, Length, Hashed, Slot, Open;
    var o := Open(inp, ip, lit, ts);
    AllBelow(o, ip);
    LastHashed(o);
    assert inp[ip - 1] == inp[ip] == inp[ip + 1] == inp[ip + 2];
    assert SlotAt(inp, ip - 1) == SlotAt(inp, ip);
    assert ip - 1 in Hashed(o);
    assert OfSlot(inp, base, Hashed(o), SlotAt(inp, ip), htab[SlotAt(inp, ip)]);
    assert htab[SlotAt(inp, ip)] == base + ip - 1;
  }

  /**
   Where a text of `len` equal bytes leads: two literals, references of 264 bytes in three, and at the end a
   shorter one and a few literals.
   */
  predicate Steady(len: nat, ip: nat, op: int, lit: nat) {
    || (ip <= 2 && lit == ip && op == ip + 1)
    || (ip >= 2 && lit == 0 && 88 * (op - 4) <= ip - 2)
    || (len <= ip + 3 && lit <= 3 + (ip + 3 - len) && op <= len / 88 + 7 + (ip + 3 - len))
  }

  lemma SteadyLiteral(len: nat, ip: nat, op: int, lit: nat)
    requires Steady(len, ip, op, lit) && ip + 2 < len && (ip >= 2 ==> ip + 4 >= len)
    ensures lit + 1 < MAX_LIT && Steady(len, ip + 1, op + 1, lit + 1)
  {
  }

  lemma SteadyMatch(len: nat, ip: nat, op: int, lit: nat, ip': nat, op': int)
    requires Steady(len, ip, op, lit) && 2 <= ip && ip + 4 < len && ip + 3 <= ip' <= len
    requires op' <= if lit == 0 then op + 3 else op + 4
    requires ip' == ip + MAX_REF || ip' + 2 >= len
    ensures Steady(len, ip', op', 0)
  {
  }

  lemma SteadyBound(len: nat, ip: nat, op: int, lit: nat)
    requires Steady(len, ip, op, lit) && ip <= len
    ensures op <= len / 88 + 10
  {
  }

  lemma SteadyStart(len: nat)
    ensures Steady(len, 0, 1, 0)
  {
  }

  /** An iteration on equal bytes finds a match exactly if it can, and otherwise a literal is due. */
  lemma EqualIteration(
    inp: seq<byte>, base: nat, htab: seq<Address>, hval: nat, ip: nat, op: int, lit: nat, ts: seq<Token>)
    requires AllEqual(inp) && Scanning(inp, base, htab, hval, ip, lit, ts) && Steady(|inp|, ip, op, lit) && ip + 2 < |inp|
    ensures var usable := Usable(inp, base, ip, htab[SlotAt(inp, ip)]);
            && (usable ==> 2 <= ip && ip + 4 < |inp|)
            && (!usable ==> lit + 1 < MAX_LIT && Steady(|inp|, ip + 1, op + 1, lit + 1))
            && op <= |inp| / 88 + 10
  {
    hide Scanning, Steady, AllEqual, Repeats;
    SteadyBound(|inp|, ip, op, lit);
    if 2 <= ip && ip + 4 < |inp| {
      EqualFound(inp, base, htab, hval, ip, lit, ts);
    } else {
      SteadyLiteral(|inp|, ip, op, lit);
    }
  }

  lemma EqualMatch(inp: seq<byte>, ip: nat, op: int, lit: nat, off: nat, ip': nat, op': int)
    requires AllEqual(inp) && Steady(|inp|, ip, op, lit) && 2 <= ip && ip + 4 < |inp| && ip + 3 <= ip' <= |inp|
    requires op' <= (if lit == 0 then op + 3 else op + 4) && Longest(inp, ip, off, ip' - ip)
    ensures Steady(|inp|, ip', op', 0)
  {
    SteadyMatch(|inp|, ip, op, lit, ip', op');
  }

  /** Storing the header of a run turns the run into a token. */
  lemma CloseRun(inp: seq<byte>, o: seq<byte>, ip: nat, op: nat, lit: nat, ts: seq<Token>)
    requires 1 <= lit <= MAX_LIT && lit <= ip <= |inp| && lit + 1 <= op <= |o|
    requires Decodable(ts) && EncodeAll(ts) == o[..op - lit - 1] && Output(ts) == inp[..ip - lit]
    requires o[op - lit - 1] == lit - 1 && o[op - lit..op] == inp[ip - lit..ip]
    ensures var ts' := ts + [Lit(inp[ip - lit..ip])];
            Decodable(ts') && EncodeAll(ts') == o[..op] && Output(ts') == inp[..ip]
  {
    hide Decodable, EncodeAll, Output;
    var run := inp[ip - lit..ip];
    Extend(ts, Lit(run));
    assert inp[..ip - lit] + run == inp[..ip];
    assert Encode(Lit(run)) == [o[op - lit - 1]] + o[op - lit..op];
    assert o[..op] == o[..op - lit - 1] + Encode(Lit(run));
  }

  /** A reference to repeated input is a token for the repetition. */
  lemma AddReference(inp: seq<byte>, ip: nat, off: nat, len: nat, ts: seq<Token>)
    requires ip <= |inp| && Decodable(ts) && Output(ts) == inp[..ip]
    requires off < MAX_OFF && 3 <= len <= MAX_REF && Repeats(inp, ip, off + 1, len)
    ensures var ts' := ts + [Ref(off, len)];
            && Decodable(ts')
            && Output(ts') == inp[..ip + len]
            && EncodeAll(ts') == EncodeAll(ts) + Encode(Ref(off, len))
  {
    hide Decodable, EncodeAll, Output, Encode;
    Extend(ts, Ref(off, len));
    CopyOfMatch(inp, ip, off + 1, len);
  }

  /** `lit++; *op++ = *ip++;`, closing the run when it is full. */
  method PutLiteral(inp: seq<byte>, out: array<byte>, ip: nat, op: nat, lit: nat, ghost ts: seq<Token>)
    returns (op': nat, lit': nat, ghost ts': seq<Token>)
    requires Writing(inp, out[..], ip, op, lit, ts) && ip < |inp| && op + 1 < out.Length
    modifies out
    ensures Writing(inp, out[..], ip + 1, op', lit', ts')
    ensures if lit + 1 == MAX_LIT then op' == op + 2 && lit' == 0 else op' == op + 1 && lit' == lit + 1
    ensures Open(inp, ip + 1, lit', ts') == ts + [Lit(inp[ip - lit..ip + 1])]
  {
    hide Decodable, EncodeAll, Output;
    ghost var run, tokens := out[op - lit..op], out[..op - lit - 1];
    out[op] := inp[ip];
    op', lit', ts' := op + 1, lit + 1, ts;
    assert out[..][..op - lit - 1] == tokens;
    assert out[..][op - lit..op + 1] == run + [inp[ip]] == inp[ip - lit..ip + 1];
    assert Open(inp, ip + 1, lit', ts) == ts + [Lit(inp[ip - lit..ip + 1])];
    if lit' == MAX_LIT {
      out[op' - lit' - 1] := lit' - 1;
      assert out[..][..op - lit - 1] == tokens;
      assert out[..][op - lit..op + 1] == inp[ip - lit..ip + 1];
      CloseRun(inp, out[..], ip + 1, op', lit', ts);
      ts' := ts + [Lit(inp[ip + 1 - lit'..ip + 1])];
      op', lit' := op' + 1, 0;
    }
  }

  /** `op[-lit-1] = lit - 1; op -= !lit;`: stop the run, or take its header back. */
  method StopRun(inp: seq<byte>, out: array<byte>, ip: nat, op: nat, lit: nat, ghost ts: seq<Token>)
    returns (op': nat, ghost ts': seq<Token>)
    requires Writing(inp, out[..], ip, op, lit, ts)
    modifies out
    ensures Decodable(ts') && op' <= op && EncodeAll(ts') == out[..op'] && Output(ts') == inp[..ip]
    ensures op' == if lit == 0 then op - 1 else op
    ensures ts' == Open(inp, ip, lit, ts)
  {
    hide Decodable, EncodeAll, Output;
    out[op - lit - 1] := if lit == 0 then 255 else lit - 1;
    if lit == 0 {
      op', ts' := op - 1, ts;
    } else {
      CloseRun(inp, out[..], ip, op, lit, ts);
      op', ts' := op, ts + [Lit(inp[ip - lit..ip])];
    }
  }

  /**
   The length of a match whose first three bytes are known to agree. The first loop
   is the unrolled one: it may run past `maxlen`, but not past the input.
   */
  method MatchLength(inp: seq<byte>, ref: nat, ip: nat) returns (len: nat)
    requires ref < ip && ip + 4 < |inp| && Repeats(inp, ip, ip - ref, 3)
    ensures 3 <= len <= MAX_REF && Repeats(inp, ip, ip - ref, len)
    ensures len >= MAX_REF || len >= |inp| - ip - 2 || inp[ref + len] != inp[ip + len]
  {
    len := 2;
    var maxlen := |inp| - ip - len;
    maxlen := if maxlen > MAX_REF then MAX_REF else maxlen;
    if maxlen > 16 {
      var k := 0;
      while k < 16
        invariant 0 <= k <= 16 && len == 2 + k
        invariant Repeats(inp, ip, ip - ref, len + 1)
      {
        len := len + 1;
        if inp[ref + len] != inp[ip + len] {
          return;
        }
        k := k + 1;
      }
    }
    len := len + 1;
    while len < maxlen && inp[ref + len] == inp[ip + len]
      invariant 3 <= len <= MAX_REF && ip + len <= |inp|
      invariant Repeats(inp, ip, ip - ref, len)
    {
      len := len + 1;
    }
  }

  /** Writing a back reference, and the header of the next run. */
  method PutReference(inp: seq<byte>, out: array<byte>, ip: nat, op: nat, off: nat, len: nat, ghost ts: seq<Token>)
    returns (op': nat, ghost ts': seq<Token>)
    requires ip <= |inp| && op + 4 < out.Length
    requires Decodable(ts) && EncodeAll(ts) == out[..op] && Output(ts) == inp[..ip]
    requires off < MAX_OFF && 3 <= len <= MAX_REF && Repeats(inp, ip, off + 1, len)
    modifies out
    ensures Writing(inp, out[..], ip + len, op', 0, ts') && op' <= op + 4
    ensures op' - 1 <= op + len - 1
    ensures ts' == ts + [Ref(off, len)]
  {
    hide Decodable, EncodeAll, Output;
    AddReference(inp, ip, off, len, ts);
    ts' := ts + [Ref(off, len)];
    ghost var before := out[..op];
    op' := op;
    var l := len - 2;
    if l < 7 {
      out[op'] := off / 256 + l * 32;
      op' := op' + 1;
    } else {
      out[op'] := off / 256 + 7 * 32;
      out[op' + 1] := l - 7;
      op' := op' + 2;
    }
    out[op'] := off % 256;
    op' := op' + 1;
    assert out[..op'] == before + Encode(Ref(off, len));
    op' := op' + 1;
  }

  /** The test whether an address from the hash table is a usable match for the input at `ip`. */
  method Probe(inp: seq<byte>, base: nat, ip: nat, ref: Address) returns (found: bool, off: nat)
    requires MAX_OFF <= base && base + |inp| < U64 && ip + 2 < |inp|
    ensures found <==> Usable(inp, base, ip, ref)
    ensures found ==> ref == base + ip - off - 1
  {
    off := (base + ip - ref - 1) % U64;
    if off < MAX_OFF && ip + 4 < |inp| && ref > base {
      var r := ref - base;
      found := inp[r] == inp[ip] && inp[r + 1] == inp[ip + 1] && inp[r + 2] == inp[ip + 2];
    } else {
      found := false;
    }
  }

  /** After a match, the last two positions of the match are put into the hash table. */
  method HashMatchEnd(inp: seq<byte>, base: nat, htab: array<Address>, ip: nat) returns (hval: nat)
    requires htab.Length == HSIZE && 2 <= ip && ip + 2 < |inp| && base + |inp| < U64
    modifies htab
    ensures Holds(hval, inp[ip], inp[ip + 1])
    ensures var s := old(htab[..])[SlotAt(inp, ip - 2) := base + ip - 2];
            htab[..] == s[SlotAt(inp, ip - 1) := base + ip - 1]
  {
    hide NextHash, Idx, Slot;
    HashIs(inp[ip - 2] as int * 256 + inp[ip - 1] as int, inp[ip - 2], inp[ip - 1], inp[ip]);
    HashIs(NextHash(inp[ip - 2] as int * 256 + inp[ip - 1] as int, inp[ip]), inp[ip - 1], inp[ip], inp[ip + 1]);
    var p := ip - 2;
    hval := inp[p] as int * 256 + inp[p + 1] as int;
    hval := NextHash(hval, inp[p + 2]);
    htab[Idx(hval)] := base + p;
    p := p + 1;
    hval := NextHash(hval, inp[p + 2]);
    htab[Idx(hval)] := base + p;
  }

  /** The end of `lzf_compress`: at most two bytes are left, and at most three more are written. */
  method PutTail(inp: seq<byte>, out: array<byte>, ip0: nat, op0: nat, lit0: nat, ghost ts0: seq<Token>)
    returns (n: nat, ghost ts: seq<Token>)
    requires Writing(inp, out[..], ip0, op0, lit0, ts0)
    requires |inp| <= ip0 + 2 && op0 + 3 < out.Length && 32 * (op0 - lit0 - 1) <= 33 * (ip0 - lit0)
    requires GreedySoFar(inp, ip0, lit0, ts0)
    modifies out
    ensures n <= op0 + 3 && 32 * n < 33 * |inp| + 32
    ensures Decodable(ts) && EncodeAll(ts) == out[..n] && Output(ts) == inp && Greedy(inp, ts)
  {
    hide Decodable, EncodeAll, Output, GreedySoFar, Greedy, Open, Writing;
    var ip, op, lit := ip0, op0, lit0;
    ts := ts0;
    WritingBounds(inp, out[..], ip, op, lit, ts);
    while ip < |inp|
      invariant ip0 <= ip <= |inp| && 0 <= op && 0 <= lit
      invariant op <= op0 + (ip - ip0) + (if lit < ip - ip0 || (ip > ip0 && lit == 0) then 1 else 0)
      invariant ip == ip0 + 1 && op == op0 + 2 ==> lit == 0
      invariant 32 * (op - lit - 1) <= 33 * (ip - lit)
      invariant Writing(inp, out[..], ip, op, lit, ts) && GreedySoFar(inp, ip, lit, ts)
    {
      WritingBounds(inp, out[..], ip, op, lit, ts);
      ghost var lit1, ts1 := lit, ts;
      op, lit, ts := PutLiteral(inp, out, ip, op, lit, ts);
      WritingBounds(inp, out[..], ip + 1, op, lit, ts);
      GreedyTail(inp, ip, lit1, ts1, lit, ts);
      ip := ip + 1;
    }
    WritingBounds(inp, out[..], ip, op, lit, ts);
    GreedyStopped(inp, ip, lit, ts);
    n, ts := StopRun(inp, out, ip, op, lit, ts);
    assert inp[..ip] == inp;
  }

  lemma WritingBounds(inp: seq<byte>, o: seq<byte>, ip: nat, op: nat, lit: nat, ts: seq<Token>)
    requires Writing(inp, o, ip, op, lit, ts)
    ensures lit < MAX_LIT && lit <= ip <= |inp| && lit + 1 <= op <= |o|
  {
  }

  /** The branch for a match: the run is stopped and a reference written, unless the room is too small. */
  method PutMatch(
    inp: seq<byte>, base: nat, out: array<byte>, outLen: nat, ip: nat, op: nat, lit: nat, ref: Address, off: nat,
    ghost ts: seq<Token>)
    returns (ok: bool, ip': nat, op': nat, ghost ts': seq<Token>)
    requires Writing(inp, out[..], ip, op, lit, ts) && outLen < out.Length && base + |inp| < U64
    requires 32 * (op - lit - 1) <= 33 * (ip - lit)
    requires ip + 4 < |inp| && base < ref < base + ip <= ref + MAX_OFF && Repeats(inp, ip, base + ip - ref, 3)
    requires ref == base + ip - off - 1
    modifies out
    ensures !ok ==> outLen <= op + 4
    ensures ok ==> Writing(inp, out[..], ip', op', 0, ts') && ip + 3 <= ip' && op' <= outLen
    ensures ok ==> 32 * (op' - 1) <= 33 * ip' && op' <= (if lit == 0 then op + 3 else op + 4)
    ensures ok ==> ts' == Open(inp, ip, lit, ts) + [Ref(off, ip' - ip)] && Longest(inp, ip, off, ip' - ip)
  {
    hide Decodable, EncodeAll, Output, Writing, Repeats;
    WritingBounds(inp, out[..], ip, op, lit, ts);
    ip' := ip;
    op', ts' := StopRun(inp, out, ip, op, lit, ts);
    if op' + 3 + 1 >= outLen {
      return false, ip', op', ts';
    }
    var len := MatchLength(inp, ref - base, ip);
    op', ts' := PutReference(inp, out, ip, op', off, len, ts');
    return true, ip + len, op', ts';
  }

  /** What follows the main loop. */
  method Finish(inp: seq<byte>, out: array<byte>, outLen: nat, ip: nat, op: nat, lit: nat, ghost ts0: seq<Token>)
    returns (n: nat, ghost ts: seq<Token>)
    requires Writing(inp, out[..], ip, op, lit, ts0) && 0 < |inp| <= ip + 2 && outLen < out.Length
    requires 32 * (op - lit - 1) <= 33 * (ip - lit) && GreedySoFar(inp, ip, lit, ts0)
    modifies out
    ensures n <= outLen && n <= op + 3 && (n == 0 <==> op + 3 > outLen)
    ensures n > 0 ==> 32 * n < 33 * |inp| + 32 && Packed(inp, out[..n], ts) && Greedy(inp, ts)
  {
    hide Decodable, EncodeAll, Output, Writing, GreedySoFar, Greedy;
    if op + 3 > outLen {
      return 0, [];
    }
    n, ts := PutTail(inp, out, ip, op, lit, ts0);
    NonEmptyStream(ts);
  }

  /** The bytes are the tokens, and the tokens stand for the text. */
  ghost predicate Packed(inp: seq<byte>, s: seq<byte>, ts: seq<Token>) {
    Decodable(ts) && EncodeAll(ts) == s && Output(ts) == inp
  }

  lemma PackedDecodes(inp: seq<byte>, s: seq<byte>, ts: seq<Token>)
    requires Packed(inp, s, ts)
    ensures forall cap | cap >= |inp| :: Decode(s, cap) == Ok(inp)
  {
    hide Decodable, EncodeAll, Output, Decode;
    forall cap | cap >= |inp|
      ensures Decode(s, cap) == Ok(inp)
    {
      DecodeEncoded(ts, cap);
    }
  }

  /** The slot that the loop computes is that of the next three bytes. */
  lemma ScanHash(inp: seq<byte>, base: nat, htab: seq<Address>, hval: nat, ip: nat, lit: nat, ts: seq<Token>)
    requires Scanning(inp, base, htab, hval, ip, lit, ts) && ip + 2 < |inp|
    ensures |htab| == HSIZE && Idx(NextHash(hval, inp[ip + 2])) == SlotAt(inp, ip)
  {
    hide GreedySoFar, Knows, Hashed, Idx, NextHash;
    HashIs(hval, inp[ip], inp[ip + 1], inp[ip + 2]);
  }

  lemma ScanIsGreedy(inp: seq<byte>, base: nat, htab: seq<Address>, hval: nat, ip: nat, lit: nat, ts: seq<Token>)
    requires Scanning(inp, base, htab, hval, ip, lit, ts)
    ensures GreedySoFar(inp, ip, lit, ts)
  {
  }

  lemma ScanStart(inp: seq<byte>, base: nat, htab: seq<Address>, hval: nat)
    requires |htab| == HSIZE && (1 < |inp| ==> hval == inp[0] as int * 256 + inp[1] as int)
    ensures Scanning(inp, base, htab, hval, 0, 0, [])
  {
  }

  /** The match branch of the loop: the reference, and what goes into the hash table after it. */
  method TakeMatch(
    inp: seq<byte>, base: nat, out: array<byte>, outLen: nat, htab: array<Address>, ghost htab0: seq<Address>, ip: nat,
    op: nat, lit: nat, ref: Address, off: nat, ghost hval0: nat, ghost ts: seq<Token>)
    returns (ok: bool, ip': nat, op': nat, hval: nat, ghost ts': seq<Token>)
    requires Writing(inp, out[..], ip, op, lit, ts) && outLen < out.Length && base + |inp| < U64
    requires 32 * (op - lit - 1) <= 33 * (ip - lit) && htab.Length == HSIZE
    requires Usable(inp, base, ip, ref) && ref == base + ip - off - 1
    requires Scanning(inp, base, htab0, hval0, ip, lit, ts) && htab[..] == htab0[SlotAt(inp, ip) := base + ip]
    modifies out, htab
    ensures !ok ==> outLen <= op + 4
    ensures ok ==> Writing(inp, out[..], ip', op', 0, ts') && ip + 3 <= ip' <= |inp| && op' <= outLen
    ensures ok ==> 32 * (op' - 1) <= 33 * ip' && op' <= (if lit == 0 then op + 3 else op + 4)
    ensures ok ==> Longest(inp, ip, off, ip' - ip) && GreedySoFar(inp, ip', 0, ts')
    ensures ok && ip' + 2 < |inp| ==> Scanning(inp, base, htab[..], hval, ip', 0, ts')
  {
    hide Writing, Longest, Repeats, Slot, Knows, Greedy, Length, Hashed, Holds, NextHash, Idx;
    hval := 0;
    ok, ip', op', ts' := PutMatch(inp, base, out, outLen, ip, op, lit, ref, off, ts);
    if !ok {
      return;
    }
    WritingBounds(inp, out[..], ip', op', 0, ts');
    GreedyReference(inp, Open(inp, ip, lit, ts), ip, off, ip' - ip);
    if ip' + 2 < |inp| {
      hval := HashMatchEnd(inp, base, htab, ip');
      ScanMatch(inp, base, htab0, hval0, ip, lit, ts, off, ip' - ip, hval);
    }
  }

  /** What holds between the iterations and at the end: enough to finish the stream from here. */
  ghost predicate Finishable(inp: seq<byte>, o: seq<byte>, ip: nat, op: nat, lit: nat, ts: seq<Token>) {
    && Writing(inp, o, ip, op, lit, ts) && GreedySoFar(inp, ip, lit, ts)
    && 32 * (op - lit - 1) <= 33 * (ip - lit)
    && (AllEqual(inp) ==> Steady(|inp|, ip, op, lit))
  }

  /** The literal branch of the loop. */
  method TakeLiteral(
    inp: seq<byte>, base: nat, out: array<byte>, ghost htab: seq<Address>, ip: nat, op: nat, lit: nat, ghost hval: nat,
    ghost ts: seq<Token>)
    returns (op': nat, lit': nat, ghost ts': seq<Token>)
    requires Finishable(inp, out[..], ip, op, lit, ts) && Scanning(inp, base, htab, hval, ip, lit, ts)
    requires ip + 2 < |inp| && base + |inp| < U64 && op + 1 < out.Length
    requires !Usable(inp, base, ip, htab[SlotAt(inp, ip)])
    modifies out
    ensures Finishable(inp, out[..], ip + 1, op', lit', ts') && op' <= op + 2
    ensures Scanning(inp, base, htab[SlotAt(inp, ip) := base + ip], NextHash(hval, inp[ip + 2]), ip + 1, lit', ts')
  {
    hide Writing, Usable, Scanning, GreedySoFar, SlotAt, NextHash, Steady, AllEqual, Open;
    if AllEqual(inp) {
      EqualIteration(inp, base, htab, hval, ip, op, lit, ts);
    }
    WritingBounds(inp, out[..], ip, op, lit, ts);
    op', lit', ts' := PutLiteral(inp, out, ip, op, lit, ts);
    ScanLiteral(inp, base, htab, hval, ip, lit, ts, lit', ts');
  }

  /** One iteration: a reference if the slot of the next three bytes has a usable place, and otherwise a literal. */
  method CompressStep(
    inp: seq<byte>, base: nat, out: array<byte>, outLen: nat, htab: array<Address>, hval: nat, ip: nat, op: nat,
    lit: nat, ghost ts: seq<Token>)
    returns (ok: bool, hval': nat, ip': nat, op': nat, lit': nat, ghost ts': seq<Token>)
    requires Finishable(inp, out[..], ip, op, lit, ts) && outLen < out.Length
    requires Scanning(inp, base, htab[..], hval, ip, lit, ts) && htab.Length == HSIZE
    requires ip + 2 < |inp| && MAX_OFF <= base && base + |inp| < U64
    modifies out, htab
    ensures !ok ==> outLen <= op + 4
    ensures ok ==> Finishable(inp, out[..], ip', op', lit', ts') && ip < ip' <= |inp| && op' <= outLen + 1
    ensures ok && ip' + 2 < |inp| ==> Scanning(inp, base, htab[..], hval', ip', lit', ts')
  {
    hide NextHash, Idx, Writing, Usable, Scanning, GreedySoFar, Longest, Steady, AllEqual, SlotAt;
    ghost var htab0 := htab[..];
    ScanHash(inp, base, htab0, hval, ip, lit, ts);
    if AllEqual(inp) {
      EqualIteration(inp, base, htab0, hval, ip, op, lit, ts);
    }
    WritingBounds(inp, out[..], ip, op, lit, ts);
    hval' := NextHash(hval, inp[ip + 2]);
    var hslot := Idx(hval');
    var ref := htab[hslot];
    htab[hslot] := base + ip;
    var found, off := Probe(inp, base, ip, ref);
    ip', op', lit', ts' := ip, op, 0, ts;
    if found {
      ok, ip', op', hval', ts' := TakeMatch(inp, base, out, outLen, htab, htab0, ip, op, lit, ref, off, hval, ts);
      if ok && AllEqual(inp) {
        EqualMatch(inp, ip, op, lit, off, ip', op');
      }
    } else {
      ok := op < outLen;
      if ok {
        op', lit', ts' := TakeLiteral(inp, base, out, htab0, ip, op, lit, hval, ts);
        ip' := ip + 1;
      }
    }
  }

  /**
   `lzf_compress`. `base` is the address of the input; the first 8192 addresses are
   never used for data. Whatever the hash table holds initially, a non-zero result is the
   length of a stream that decodes to the input and misses no repetition that the table
   has; a text of equal bytes takes no more than three bytes for each 264.
   */
  method Compress(inp: seq<byte>, base: nat, out: array<byte>, outLen: nat) returns (n: nat, ghost ts: seq<Token>)
    requires MAX_OFF <= base && base + |inp| < U64
    requires outLen < out.Length
    modifies out
    ensures n <= outLen
    ensures n > 0 ==> forall cap | cap >= |inp| :: Decode(out[..n], cap) == Ok(inp)
    ensures |inp| > 0 && 32 * outLen >= 33 * |inp| + 192 ==> n > 0
    ensures n > 0 ==> 32 * n < 33 * |inp| + 32
    ensures n > 0 ==> Packed(inp, out[..n], ts) && Greedy(inp, ts)
    ensures AllEqual(inp) && outLen >= |inp| / 88 + 15 ==> 0 < n <= |inp| / 88 + 13
  {
    if |inp| == 0 || outLen == 0 {
      return 0, [];
    }
    hide Packed, Decode, Writing, Scanning, GreedySoFar, Greedy, Steady, AllEqual;
    var htab := new Address[HSIZE];
    ts := [];
    var ip, op, lit := 0, 1, 0;
    var hval := if |inp| >= 2 then inp[0] as int * 256 + inp[1] as int else 0;
    EmptyStream(inp, out[..]);
    ScanStart(inp, base, htab[..], hval);
    ScanIsGreedy(inp, base, htab[..], hval, ip, lit, ts);
    SteadyStart(|inp|);
    while ip + 2 < |inp|
      invariant 0 <= ip <= |inp| && 0 <= op <= outLen + 1 && 0 <= lit && 0 <= hval
      invariant Finishable(inp, out[..], ip, op, lit, ts)
      invariant ip + 2 < |inp| ==> Scanning(inp, base, htab[..], hval, ip, lit, ts)
      decreases |inp| - ip
    {
      RoomLeft(inp, out[..], ip, op, lit, ts);
      var ok;
      ok, hval, ip, op, lit, ts := CompressStep(inp, base, out, outLen, htab, hval, ip, op, lit, ts);
      if !ok {
        return 0, [];
      }
    }
    RoomLeft(inp, out[..], ip, op, lit, ts);
    n, ts := Finish(inp, out, outLen, ip, op, lit, ts);
    if n > 0 {
      PackedDecodes(inp, out[..n], ts);
    }
  }

  /** How far the output can have got. */
  lemma RoomLeft(inp: seq<byte>, o: seq<byte>, ip: nat, op: nat, lit: nat, ts: seq<Token>)
    requires Finishable(inp, o, ip, op, lit, ts)
    ensures 32 * op <= 33 * |inp| + 63
    ensures AllEqual(inp) ==> op <= |inp| / 88 + 10
  {
    hide GreedySoFar, Steady, AllEqual;
    if AllEqual(inp) {
      SteadyBound(|inp|, ip, op, lit);
    }
  }

  lemma NonEmptyStream(ts: seq<Token>)
    requires Decodable(ts) && Output(ts) != []
    ensures EncodeAll(ts) != []
  {
  }

  lemma EmptyStream(inp: seq<byte>, o: seq<byte>)
    requires |o| >= 1
    ensures Writing(inp, o, 0, 1, 0, [])
  {
  }

  // --- The size promised in `lzf.h` ---

  /** The lengths for which every compressed input stays below 104%: a header for each 32 bytes has to fit into 4%. */
  predicate Below104(len: nat) {
    25 * ((len + 31) / 32) < len
  }

  lemma SizeBelow104(n: nat, len: nat)
    requires 32 * n < 33 * len + 32 && Below104(len)
    ensures 100 * n < 104 * len
  {
    var runs := (len + 31) / 32;
    assert n <= len + runs;
  }

  /** The two together: what was compressed successfully comes back unchanged. */
  method RoundTrip(inp: seq<byte>, base: nat, packed: array<byte>, packedLen: nat, out: array<byte>)
    returns (n: nat, m: nat, errno: Errno)
    requires MAX_OFF <= base && base + |inp| < U64
    requires packedLen < packed.Length && |inp| <= out.Length && packed != out
    modifies packed, out
    ensures n > 0 ==> m == |inp| && out[..m] == inp && errno == NoError
    ensures n > 0 && Below104(|inp|) ==> 100 * n < 104 * |inp|
  {
    hide Decode;
    ghost var ts;
    n, ts := Compress(inp, base, packed, packedLen);
    if n == 0 {
      return 0, 0, NoError;
    }
    assert Below104(|inp|) ==> 100 * n < 104 * |inp| by {
      if Below104(|inp|) {
        SizeBelow104(n, |inp|);
      }
    }
    hide Below104;
    m, errno := Decompress(packed[..n], out, |inp|);
  }

  predicate DistinctBytes(text: seq<byte>) {
    forall i, j | 0 <= i < j < |text| :: text[i] != text[j]
  }

  lemma {:induction false} CopyRepeats(out: seq<byte>, dist: nat, n: nat)
    requires 1 <= dist <= |out|
    ensures out <= Copy(out, dist, n)
    ensures n > 0 ==> Copy(out, dist, n)[|out|] == out[|out| - dist]
    decreases n
  {
    if n > 0 {
      CopyRepeats(out + [out[|out| - dist]], dist, n - 1);
    }
  }

  /** Decoding only ever appends. */
  lemma {:induction false} DecodeExtends(s: seq<byte>, i: nat, out: seq<byte>, cap: nat)
    requires DecodeFrom(s, i, out, cap).Ok?
    ensures out <= DecodeFrom(s, i, out, cap).out
    decreases |s| - i
  {
    hide Copy;
    if i < |s| {
      var step := DecodeStep(s, i, out, cap);
      StepExtends(s, i, out, cap);
      DecodeExtends(s, step.i, step.out, cap);
    }
  }

  /** A step appends; and it appends a byte that was there before, or copies one byte less than it reads, 32 at most. */
  lemma StepExtends(s: seq<byte>, i: nat, out: seq<byte>, cap: nat)
    requires i < |s| && DecodeStep(s, i, out, cap).Next?
    ensures var step := DecodeStep(s, i, out, cap);
            && out <= step.out
            && (step.out[|out|] in out || (|step.out| - |out| == step.i - i - 1 <= 32))
  {
    hide Copy;
    var ctrl: int := s[i];
    if ctrl >= 32 {
      var long := ctrl / 32 == 7;
      var len: int := if long then 7 + s[i + 1] as int else ctrl / 32;
      var j := if long then i + 2 else i + 1;
      CopyRepeats(out, (ctrl % 32) * 256 + 1 + s[j] as int, len + 2);
    }
  }

  lemma StepRoom(s: seq<byte>, i: nat, out: seq<byte>, cap: nat, cap': nat)
    requires i < |s| && DecodeStep(s, i, out, cap).Next?
    ensures var step := DecodeStep(s, i, out, cap);
            DecodeStep(s, i, out, cap') == if |step.out| <= cap' then step else Fail(TooBig)
  {
    hide Copy;
  }

  lemma {:induction false} RoomDecidesFrom(s: seq<byte>, i: nat, out: seq<byte>, cap: nat, cap': nat)
    requires DecodeFrom(s, i, out, cap).Ok? && |out| <= cap'
    ensures var text := DecodeFrom(s, i, out, cap).out;
            DecodeFrom(s, i, out, cap') == if |text| <= cap' then Ok(text) else TooBig
    decreases |s| - i
  {
    hide DecodeStep;
    if i < |s| {
      var step := DecodeStep(s, i, out, cap);
      StepRoom(s, i, out, cap, cap');
      DecodeExtends(s, step.i, step.out, cap);
      if |step.out| <= cap' {
        RoomDecidesFrom(s, step.i, step.out, cap, cap');
      }
    }
  }

  /** A stream that decodes at all decodes to the same text whenever there is room for it, and is too big otherwise. */
  lemma RoomDecides(s: seq<byte>, cap: nat, text: seq<byte>, cap': nat)
    requires Decode(s, cap) == Ok(text)
    ensures Decode(s, cap') == if |text| <= cap' then Ok(text) else TooBig
  {
    RoomDecidesFrom(s, 0, [], cap, cap');
  }

  /** A text without repeated bytes can only be stored in literal runs, each with a header. */
  lemma {:induction false} DistinctIsLong(s: seq<byte>, i: nat, out: seq<byte>, cap: nat)
    requires i <= |s| && DecodeFrom(s, i, out, cap).Ok? && DistinctBytes(DecodeFrom(s, i, out, cap).out)
    ensures var left := |DecodeFrom(s, i, out, cap).out| - |out|;
            left >= 0 && |s| - i >= left + (left + 31) / 32
    decreases |s| - i
  {
    hide DecodeStep;
    if i < |s| {
      var step := DecodeStep(s, i, out, cap);
      var text := DecodeFrom(s, i, out, cap).out;
      StepExtends(s, i, out, cap);
      DecodeExtends(s, step.i, step.out, cap);
      assert text[|out|] == step.out[|out|];
      assert step.out[|out|] !in out;
      DistinctIsLong(s, step.i, step.out, cap);
    }
  }

  /** For all other lengths there is an input that no compressor of this format can keep below 104%. */
  lemma NotBelow104(len: nat) returns (text: seq<byte>)
    requires len > 0 && !Below104(len)
    ensures |text| == len
    ensures forall s, cap | Decode(s, cap) == Ok(text) :: 100 * |s| >= 104 * len
  {
    assert len <= 100;
    text := seq(len, i requires 0 <= i < len => i as byte);
    forall s, cap | Decode(s, cap) == Ok(text)
      ensures 100 * |s| >= 104 * len
    {
      DistinctIsLong(s, 0, [], cap);
    }
  }
}
