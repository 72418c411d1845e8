/**
 The compressed format of LZF: literal runs and back references, what a stream of
 them stands for, and decoding of arbitrary bytes.
 */
module LzfFormat {
  import opened Common

  const MAX_LIT: nat := 32
  const MAX_OFF: nat := 8192
  const MAX_REF: nat := 264

  /** A run of literal bytes, or a copy of `len` bytes from `off + 1` bytes back. */
  datatype Token = Lit(run: seq<byte>) | Ref(off: nat, len: nat)

  predicate WellFormed(t: Token) {
    match t
    case Lit(run) => 1 <= |run| <= MAX_LIT
    case Ref(off, len) => off < MAX_OFF && 3 <= len <= MAX_REF
  }

  /** The bytes of one token: `000LLLLL`, `LLLooooo oooooooo` or `111ooooo LLLLLLLL oooooooo`. */
  function Encode(t: Token): (s: seq<byte>)
    requires WellFormed(t)
  {
    match t
    case Lit(run) => [(|run| - 1) as byte] + run
    case Ref(off, len) =>
      if len - 2 < 7 then [(off / 256 + (len - 2) * 32) as byte, (off % 256) as byte]
      else [(off / 256 + 7 * 32) as byte, (len - 2 - 7) as byte, (off % 256) as byte]
  }

  /** Copying byte by byte, so that the source may overlap what is being written. */
  function Copy(out: seq<byte>, dist: nat, n: nat): (r: seq<byte>)
    requires 1 <= dist <= |out|
    ensures |r| == |out| + n
    decreases n
  {
    if n == 0 then out else Copy(out + [out[|out| - dist]], dist, n - 1)
  }

  predicate Applicable(out: seq<byte>, t: Token) {
    WellFormed(t) && (t.Ref? ==> t.off < |out|)
  }

  function Apply(out: seq<byte>, t: Token): (r: seq<byte>)
    requires Applicable(out, t)
    ensures |r| > |out|
  {
    match t
    case Lit(run) => out + run
    case Ref(off, len) => Copy(out, off + 1, len)
  }

  /** What a stream of tokens stands for, if every reference stays inside what precedes it. */
  function Meaning(ts: seq<Token>): Option<seq<byte>> {
    if ts == [] then Some([])
    else
      var out, t := Meaning(ts[..|ts| - 1]), ts[|ts| - 1];
      if out.Some? && Applicable(out.value, t) then Some(Apply(out.value, t)) else None
  }

  predicate Decodable(ts: seq<Token>) {
    Meaning(ts).Some?
  }

  function Output(ts: seq<Token>): seq<byte>
    requires Decodable(ts)
  {
    Meaning(ts).value
  }

  function EncodeAll(ts: seq<Token>): seq<byte>
    requires Decodable(ts)
  {
    if ts == [] then [] else EncodeAll(ts[..|ts| - 1]) + Encode(ts[|ts| - 1])
  }

  /** Adding one token at the end. */
  lemma Extend(ts: seq<Token>, t: Token)
    ensures Decodable(ts + [t]) <==> Decodable(ts) && Applicable(Output(ts), t)
    ensures Decodable(ts + [t]) ==>
              && Output(ts + [t]) == Apply(Output(ts), t)
              && EncodeAll(ts + [t]) == EncodeAll(ts) + Encode(t)
  {
    hide Apply, Encode, Applicable;
    assert (ts + [t])[..|ts|] == ts;
  }

  // --- Decoding arbitrary bytes ---

  datatype Result = Ok(out: seq<byte>) | TooBig | Invalid

  /** One iteration of the decoder: where the input goes on and the output so far, or an error. */
  datatype Step = Next(i: nat, out: seq<byte>) | Fail(error: Result)

  /** One iteration of `lzf_decompress`, from input position `i`. */
  function DecodeStep(s: seq<byte>, i: nat, out: seq<byte>, cap: nat): (r: Step)
    requires i < |s|
    ensures r.Next? ==> i < r.i <= |s| && |out| < |r.out| <= cap
    ensures r.Fail? ==> !r.error.Ok?
  {
    var ctrl: int := s[i];
    if ctrl < 32 then
      if |out| + ctrl + 1 > cap then Fail(TooBig)
      else if i + 1 + ctrl + 1 > |s| then Fail(Invalid)
      else Next(i + 2 + ctrl, out + s[i + 1..i + 2 + ctrl])
    else if i + 1 >= |s| then Fail(Invalid)
    else
      var long := ctrl / 32 == 7;
      var len: int := if long then 7 + s[i + 1] as int else ctrl / 32;
      var j := if long then i + 2 else i + 1;
      if j >= |s| then Fail(Invalid)
      else if |out| + len + 2 > cap then Fail(TooBig)
      else
        var dist := (ctrl % 32) * 256 + 1 + s[j] as int;
        if dist > |out| then Fail(Invalid)
        else Next(j + 1, Copy(out, dist, len + 2))
  }

  function DecodeFrom(s: seq<byte>, i: nat, out: seq<byte>, cap: nat): Result
    decreases |s| - i
  {
    if i >= |s| then Ok(out)
    else
      match DecodeStep(s, i, out, cap)
      case Fail(error) => error
      case Next(i', out') => DecodeFrom(s, i', out', cap)
  }

  function Decode(s: seq<byte>, cap: nat): Result {
    DecodeFrom(s, 0, [], cap)
  }

  // --- Decoding undoes encoding ---

  lemma RefHeader(off: nat, l: nat)
    requires off < MAX_OFF && l <= 7
    ensures (off / 256 + l * 32) / 32 == l && (off / 256 + l * 32) % 32 == off / 256
  {
  }

  /** One token is decoded as what it stands for, whatever follows it. */
  lemma StepToken(s: seq<byte>, i: nat, t: Token, out: seq<byte>, cap: nat)
    requires Applicable(out, t) && |Apply(out, t)| <= cap
    requires i + |Encode(t)| <= |s| && s[i..i + |Encode(t)|] == Encode(t)
    ensures DecodeStep(s, i, out, cap) == Next(i + |Encode(t)|, Apply(out, t))
  {
    match t
    case Lit(run) => StepLit(s, i, run, out, cap);
    case Ref(off, len) => StepRef(s, i, off, len, out, cap);
  }

  lemma StepLit(s: seq<byte>, i: nat, run: seq<byte>, out: seq<byte>, cap: nat)
    requires Applicable(out, Lit(run)) && |Apply(out, Lit(run))| <= cap
    requires i + |Encode(Lit(run))| <= |s| && s[i..i + |Encode(Lit(run))|] == Encode(Lit(run))
    ensures DecodeStep(s, i, out, cap) == Next(i + |Encode(Lit(run))|, Apply(out, Lit(run)))
  {
    var e := Encode(Lit(run));
    assert s[i] == s[i..i + |e|][0] == e[0];
    assert s[i..i + |e|][1..] == run;
    assert s[i + 1..i + 1 + |run|] == run;
  }

  lemma StepRef(s: seq<byte>, i: nat, off: nat, len: nat, out: seq<byte>, cap: nat)
    requires Applicable(out, Ref(off, len)) && |Apply(out, Ref(off, len))| <= cap
    requires i + |Encode(Ref(off, len))| <= |s| && s[i..i + |Encode(Ref(off, len))|] == Encode(Ref(off, len))
    ensures DecodeStep(s, i, out, cap) == Next(i + |Encode(Ref(off, len))|, Apply(out, Ref(off, len)))
  {
    hide Copy;
    var e := Encode(Ref(off, len));
    assert forall j | 0 <= j < |e| :: s[i + j] == s[i..i + |e|][j] == e[j];
    assert s[i] == s[i + 0] == e[0];
    var l := if len - 2 < 7 then len - 2 else 7;
    RefHeader(off, l);
    assert off == (off / 256) * 256 + off % 256;
    assert s[i + 1] == e[1];
    if l == 7 {
      assert s[i + 2] == e[2];
    }
  }

  lemma {:induction false} PrefixDecodable(ts: seq<Token>, k: nat)
    requires Decodable(ts) && k <= |ts|
    ensures Decodable(ts[..k])
    ensures |Output(ts[..k])| <= |Output(ts)|
    ensures EncodeAll(ts[..k]) <= EncodeAll(ts)
    decreases |ts|
  {
    if k < |ts| {
      var n := |ts| - 1;
      PrefixDecodable(ts[..n], k);
      assert ts[..n][..k] == ts[..k];
    } else {
      assert ts[..k] == ts;
    }
  }

  /** Token `k` sits in the stream right after the tokens before it. */
  lemma NextToken(ts: seq<Token>, k: nat)
    requires Decodable(ts) && k < |ts|
    ensures Decodable(ts[..k]) && Decodable(ts[..k + 1])
    ensures Applicable(Output(ts[..k]), ts[k]) && Output(ts[..k + 1]) == Apply(Output(ts[..k]), ts[k])
    ensures var i, e := |EncodeAll(ts[..k])|, Encode(ts[k]);
            && |EncodeAll(ts[..k + 1])| == i + |e| <= |EncodeAll(ts)|
            && EncodeAll(ts)[i..i + |e|] == e
  {
    hide *;
    PrefixDecodable(ts, k + 1);
    assert ts[..k + 1] == ts[..k] + [ts[k]];
    Extend(ts[..k], ts[k]);
  }

  lemma {:induction false} DecodeSuffix(ts: seq<Token>, k: nat, cap: nat)
    requires Decodable(ts) && k <= |ts| && |Output(ts)| <= cap
    ensures Decodable(ts[..k])
    ensures DecodeFrom(EncodeAll(ts), |EncodeAll(ts[..k])|, Output(ts[..k]), cap) == Ok(Output(ts))
    decreases |ts| - k
  {
    hide Meaning, Decodable, Output, EncodeAll, Encode, Apply, Applicable, DecodeStep;
    PrefixDecodable(ts, k);
    if k == |ts| {
      assert ts[..k] == ts;
    } else {
      PrefixDecodable(ts, k + 1);
      NextToken(ts, k);
      StepToken(EncodeAll(ts), |EncodeAll(ts[..k])|, ts[k], Output(ts[..k]), cap);
      DecodeSuffix(ts, k + 1, cap);
    }
  }

  /** Decoding the bytes of a stream of tokens gives what the tokens stand for, given room for it. */
  lemma DecodeEncoded(ts: seq<Token>, cap: nat)
    requires Decodable(ts) && |Output(ts)| <= cap
    ensures Decode(EncodeAll(ts), cap) == Ok(Output(ts))
  {
    assert ts[..0] == [];
    DecodeSuffix(ts, 0, cap);
  }

  lemma CopySample()
    ensures Copy([97], 1, 3) == [97, 97, 97, 97]
  {
    assert Copy([97], 1, 3) == Copy([97, 97], 1, 2) == Copy([97, 97, 97], 1, 1) == Copy([97, 97, 97, 97], 1, 0);
  }

  /** The text `aaaa`, as a literal and a reference of three bytes from one byte back. */
  lemma DecodeSample()
    ensures Decode([0, 97, 32, 0], 4) == Ok([97, 97, 97, 97])
  {
    hide Copy;
    CopySample();
    var s: seq<byte> := [0, 97, 32, 0];
    assert s[1..2] == [97];
    assert DecodeStep(s, 0, [], 4) == Next(2, [97]);
    assert DecodeStep(s, 2, [97], 4) == Next(4, Copy([97], 1, 3));
    hide DecodeStep;
    assert DecodeFrom(s, 4, Copy([97], 1, 3), 4) == Ok(Copy([97], 1, 3));
  }

  /** The `n` bytes at `ip` repeat the bytes `dist` places before them. */
  ghost predicate Repeats(text: seq<byte>, ip: nat, dist: nat, n: nat) {
    && 1 <= dist <= ip
    && ip + n <= |text|
    && forall p | ip <= p < ip + n :: text[p] == text[p - dist]
  }

  /** A back reference into such bytes continues the text, even when it overlaps itself. */
  lemma {:induction false} CopyOfMatch(text: seq<byte>, ip: nat, dist: nat, n: nat)
    requires Repeats(text, ip, dist, n)
    ensures Copy(text[..ip], dist, n) == text[..ip + n]
    decreases n
  {
    if n > 0 {
      assert text[..ip][ip - dist] == text[ip];
      assert text[..ip] + [text[ip]] == text[..ip + 1];
      CopyOfMatch(text, ip + 1, dist, n - 1);
    }
  }
}
