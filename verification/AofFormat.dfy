/**
 The text format of the append-only file: the printer of `catAppendOnlyGenericCommand`
 and the parser in the loop of `loadAppendOnlyFile`, down to the bytes that `fgets`,
 `atoi`, `strtol` and `fread` look at.
 */
module AofFormat {
  import opened Common

  type Bytes = seq<byte>

  /** A command with its arguments, the name of the command first. */
  type Command = seq<Bytes>

  const LF: byte := 10
  const CR: byte := 13
  const DOLLAR: byte := 36
  const STAR: byte := 42
  const CRLF: Bytes := [CR, LF]

  const INT_MAX: int := 0x7FFF_FFFF
  const LONG_MAX: int := 0x7FFF_FFFF_FFFF_FFFF

  // --- Printing ---

  predicate IsDigit(b: byte) {
    48 <= b <= 57
  }

  /** `ll2string` of a number that is not negative. */
  function Dec(n: nat): (r: Bytes)
    ensures |r| >= 1 && forall i | 0 <= i < |r| :: IsDigit(r[i])
  {
    if n < 10 then [48 + n] else Dec(n / 10) + [48 + n % 10]
  }

  /** `rioWriteBulkCount`: the header of a command or of an argument. */
  function Header(prefix: byte, n: nat): Bytes {
    [prefix] + Dec(n) + CRLF
  }

  function EncodeArg(a: Bytes): Bytes {
    Header(DOLLAR, |a|) + a + CRLF
  }

  function EncodeArgs(args: seq<Bytes>): Bytes {
    if args == [] then [] else EncodeArg(args[0]) + EncodeArgs(args[1..])
  }

  function Encode(c: Command): Bytes {
    Header(STAR, |c|) + EncodeArgs(c)
  }

  function EncodeAll(cs: seq<Command>): Bytes {
    if cs == [] then [] else Encode(cs[0]) + EncodeAll(cs[1..])
  }

  /** The bytes of SET k v, as they stand in a file. */
  lemma EncodeSample()
    ensures Encode([[83, 69, 84], [107], [118]])
         == [42, 51, 13, 10] + [36, 51, 13, 10, 83, 69, 84, 13, 10] + [36, 49, 13, 10, 107, 13, 10]
            + [36, 49, 13, 10, 118, 13, 10]
  {
    var c: Command := [[83, 69, 84], [107], [118]];
    assert c[1..] == [[107], [118]] && c[1..][1..] == [[118]] && c[1..][1..][1..] == [];
    assert EncodeArg([83, 69, 84]) == [36, 51, 13, 10, 83, 69, 84, 13, 10];
    assert EncodeArg([107]) == [36, 49, 13, 10, 107, 13, 10];
    assert EncodeArg([118]) == [36, 49, 13, 10, 118, 13, 10];
    assert EncodeArgs(c) == EncodeArg([83, 69, 84]) + (EncodeArg([107]) + (EncodeArg([118]) + []));
    assert Header(STAR, 3) == [42, 51, 13, 10];
  }

  /** The commands a server can hold: `argc` is an `int`, and lengths are `long`s. */
  predicate Printable(c: Command) {
    1 <= |c| <= INT_MAX && forall i | 0 <= i < |c| :: |c[i]| <= LONG_MAX
  }

  predicate AllPrintable(cs: seq<Command>) {
    forall i | 0 <= i < |cs| :: Printable(cs[i])
  }

  /** `catAppendOnlyGenericCommand`. */
  method CatAppendOnlyGenericCommand(dst: Bytes, argv: Command) returns (r: Bytes)
    ensures r == dst + Encode(argv)
  {
    r := dst + Header(STAR, |argv|);
    var j := 0;
    while j < |argv|
      invariant 0 <= j <= |argv|
      invariant r + EncodeArgs(argv[j..]) == dst + Encode(argv)
    {
      ghost var before := r;
      r := r + Header(DOLLAR, |argv[j]|);
      r := r + argv[j];
      r := r + CRLF;
      assert argv[j..][1..] == argv[j + 1..];
      assert r + EncodeArgs(argv[j + 1..]) == before + EncodeArgs(argv[j..]);
      j := j + 1;
    }
  }

  // --- Parsing ---

  predicate IsSpace(b: byte) {
    b == 32 || 9 <= b <= 13
  }

  function SkipSpace(s: Bytes): Bytes {
    if s != [] && IsSpace(s[0]) then SkipSpace(s[1..]) else s
  }

  /** The number that the digits at the front of `s` spell, after digits spelling `acc`. */
  function Digits(s: Bytes, acc: nat): nat {
    if s != [] && IsDigit(s[0]) then Digits(s[1..], 10 * acc + (s[0] - 48)) else acc
  }

  /** `strtol` in base 10, which saturates. */
  function Strtol(s: Bytes): (r: int)
    ensures -LONG_MAX - 1 <= r <= LONG_MAX
  {
    var t := SkipSpace(s);
    var v: int :=
      if t != [] && t[0] == 45 then 0 - Digits(t[1..], 0)
      else if t != [] && t[0] == 43 then Digits(t[1..], 0)
      else Digits(t, 0);
    if v > LONG_MAX then LONG_MAX else if v < -LONG_MAX - 1 then -LONG_MAX - 1 else v
  }

  /** `atoi`: the low 32 bits of `strtol`, as a signed number. */
  function Atoi(s: Bytes): int {
    var v := Strtol(s) % 0x1_0000_0000;
    if v > INT_MAX then v - 0x1_0000_0000 else v
  }

  /** A `long` stored into an `unsigned long`. */
  function Unsigned(v: int): nat
    requires -LONG_MAX - 1 <= v
  {
    if v < 0 then v + 0x1_0000_0000_0000_0000 else v
  }

  /** How many bytes `fgets` takes from `s` into a buffer with room for `limit` of them. */
  function LineLength(s: Bytes, limit: nat): (n: nat)
    ensures n <= |s| && n <= limit && (s != [] && limit > 0 ==> n > 0)
  {
    if s == [] || limit == 0 then 0
    else if s[0] == LF then 1
    else 1 + LineLength(s[1..], limit - 1)
  }

  const LINE: nat := 127

  datatype Parsed<T> = Ok(value: T, rest: Bytes) | ReadError | FormatError

  function ParseArg(s: Bytes): (p: Parsed<Bytes>)
    ensures p.Ok? ==> |p.rest| < |s|
  {
    if s == [] then ReadError
    else if s[0] != DOLLAR then FormatError
    else
      var n := LineLength(s, LINE);
      var length := Unsigned(Strtol(s[1..n]));
      var t := s[n..];
      if |t| < length + 2 then FormatError
      else Ok(t[..length], t[length + 2..])
  }

  function ParseArgs(s: Bytes, argc: nat): (p: Parsed<seq<Bytes>>)
    ensures p.Ok? ==> |p.rest| <= |s|
    decreases argc
  {
    if argc == 0 then Ok([], s)
    else
      match ParseArg(s)
      case ReadError => ReadError
      case FormatError => FormatError
      case Ok(a, rest) =>
        match ParseArgs(rest, argc - 1)
        case ReadError => ReadError
        case FormatError => FormatError
        case Ok(args, last) => Ok([a] + args, last)
  }

  function ParseCommand(s: Bytes): (p: Parsed<Command>)
    requires s != []
    ensures p.Ok? ==> |p.rest| < |s|
  {
    if s[0] != STAR then FormatError
    else
      var n := LineLength(s, LINE);
      var argc := Atoi(s[1..n]);
      if argc < 1 then FormatError
      else ParseArgs(s[n..], argc)
  }

  datatype Ending = Complete | BadRead | BadFormat

  /** The commands a load executes, and how it ends. */
  datatype Log = Log(commands: seq<Command>, ending: Ending)

  function ParseAll(s: Bytes): Log
    decreases |s|
  {
    if s == [] then Log([], Complete)
    else
      match ParseCommand(s)
      case ReadError => Log([], BadRead)
      case FormatError => Log([], BadFormat)
      case Ok(c, rest) =>
        var log := ParseAll(rest);
        Log([c] + log.commands, log.ending)
  }

  // --- Numbers ---

  function Pow10(k: nat): (r: nat)
    ensures r >= 1
  {
    if k == 0 then 1 else 10 * Pow10(k - 1)
  }

  lemma {:induction false} DecLength(n: nat, k: nat)
    requires n < Pow10(k) && k >= 1
    ensures |Dec(n)| <= k
  {
    if n >= 10 {
      assert k > 1;
      DecLength(n / 10, k - 1);
    }
  }

  lemma DecShort(n: nat)
    requires n <= LONG_MAX
    ensures |Dec(n)| <= 19
  {
    assert Pow10(5) == 100000;
    assert Pow10(10) == 10000000000;
    assert Pow10(15) == 1000000000000000;
    assert Pow10(19) == 10000000000000000000;
    DecLength(n, 19);
  }

  lemma {:induction false} DigitsDec(n: nat, t: Bytes)
    ensures Digits(Dec(n) + t, 0) == Digits(t, n)
  {
    if n >= 10 {
      var d: Bytes := [48 + n % 10];
      assert Dec(n) + t == Dec(n / 10) + (d + t);
      DigitsDec(n / 10, d + t);
      assert (d + t)[1..] == t;
    } else {
      assert (Dec(n) + t)[1..] == t;
    }
  }

  /** Reading back the number in a header. */
  lemma StrtolDec(n: nat)
    requires n <= LONG_MAX
    ensures Strtol(Dec(n) + CRLF) == n
  {
    DigitsDec(n, CRLF);
    assert IsDigit((Dec(n) + CRLF)[0]);
  }

  // --- Lines ---

  lemma {:induction false} LineOf(d: Bytes, t: Bytes, limit: nat)
    requires (forall i | 0 <= i < |d| :: d[i] != LF) && |d| < limit
    ensures LineLength(d + [LF] + t, limit) == |d| + 1
  {
    if d != [] {
      LineOf(d[1..], t, limit - 1);
      assert (d + [LF] + t)[1..] == d[1..] + [LF] + t;
    }
  }

  /** A line that is cut off by the end of the file is read as far as it goes. */
  lemma {:induction false} LineCut(d: Bytes, limit: nat)
    requires (forall i | 0 <= i < |d| :: d[i] != LF) && |d| <= limit
    ensures LineLength(d, limit) == |d|
  {
    if d != [] {
      LineCut(d[1..], limit - 1);
    }
  }

  lemma HeaderLine(prefix: byte, n: nat, t: Bytes)
    requires prefix != LF && n <= LONG_MAX
    ensures LineLength(Header(prefix, n) + t, LINE) == |Header(prefix, n)|
    ensures Strtol((Header(prefix, n) + t)[1..|Header(prefix, n)|]) == n
  {
    hide Dec, Strtol, LineLength;
    DecShort(n);
    StrtolDec(n);
    var d := [prefix] + Dec(n) + [CR];
    LineOf(d, t, LINE);
    assert Header(prefix, n) + t == d + [LF] + t;
    assert (Header(prefix, n) + t)[1..|Header(prefix, n)|] == Dec(n) + CRLF;
  }

  /** A header cut short is a line of its own, with nothing after it. */
  lemma HeaderCut(prefix: byte, n: nat, k: nat)
    requires prefix != LF && n <= LONG_MAX && k < |Header(prefix, n)|
    ensures LineLength(Header(prefix, n)[..k], LINE) == k
  {
    hide Dec, LineLength;
    DecShort(n);
    LineCut(Header(prefix, n)[..k], LINE);
  }

  // --- The parser undoes the printer ---

  lemma ParseArgOf(a: Bytes, t: Bytes)
    requires |a| <= LONG_MAX
    ensures ParseArg(EncodeArg(a) + t) == Ok(a, t)
  {
    var h := Header(DOLLAR, |a|);
    var s := EncodeArg(a) + t;
    assert s == h + (a + CRLF + t);
    HeaderLine(DOLLAR, |a|, a + CRLF + t);
    assert s[|h|..] == a + CRLF + t;
    assert (a + CRLF + t)[..|a|] == a && (a + CRLF + t)[|a| + 2..] == t;
  }

  lemma {:induction false} ParseArgsOf(args: seq<Bytes>, t: Bytes)
    requires forall i | 0 <= i < |args| :: |args[i]| <= LONG_MAX
    ensures ParseArgs(EncodeArgs(args) + t, |args|) == Ok(args, t)
  {
    hide EncodeArg, ParseArg;
    if args == [] {
      assert EncodeArgs(args) + t == t;
    } else {
      var u := EncodeArgs(args[1..]) + t;
      assert EncodeArgs(args) + t == EncodeArg(args[0]) + u;
      ParseArgOf(args[0], u);
      ParseArgsOf(args[1..], t);
      assert [args[0]] + args[1..] == args;
    }
  }

  lemma ParseCommandOf(c: Command, t: Bytes)
    requires Printable(c)
    ensures Encode(c) + t != [] && ParseCommand(Encode(c) + t) == Ok(c, t)
  {
    hide EncodeArgs, ParseArgs, Dec, Strtol, LineLength;
    var h := Header(STAR, |c|);
    var s := Encode(c) + t;
    assert s == h + (EncodeArgs(c) + t);
    HeaderLine(STAR, |c|, EncodeArgs(c) + t);
    assert s[|h|..] == EncodeArgs(c) + t;
    ParseArgsOf(c, t);
  }

  /** Encoded commands in front of anything are parsed back, and parsing goes on behind them. */
  lemma {:induction false} ParseAfter(cs: seq<Command>, t: Bytes)
    requires AllPrintable(cs)
    ensures ParseAll(EncodeAll(cs) + t) == Log(cs + ParseAll(t).commands, ParseAll(t).ending)
  {
    hide Encode, ParseCommand, Printable;
    if cs == [] {
      assert EncodeAll(cs) + t == t && cs + ParseAll(t).commands == ParseAll(t).commands;
    } else {
      ParseAfter(cs[1..], t);
      ParseFirst(cs[0], EncodeAll(cs[1..]) + t);
      assert EncodeAll(cs) + t == Encode(cs[0]) + (EncodeAll(cs[1..]) + t);
      assert [cs[0]] + (cs[1..] + ParseAll(t).commands) == cs + ParseAll(t).commands;
    }
  }

  lemma ParseFirst(c: Command, t: Bytes)
    requires Printable(c)
    ensures ParseAll(Encode(c) + t) == Log([c] + ParseAll(t).commands, ParseAll(t).ending)
  {
    hide Encode, ParseCommand, Printable;
    ParseCommandOf(c, t);
  }

  /** Loading a log gives the commands that were logged, whatever bytes their arguments hold. */
  lemma RoundTrip(cs: seq<Command>)
    requires AllPrintable(cs)
    ensures ParseAll(EncodeAll(cs)) == Log(cs, Complete)
  {
    ParseAfter(cs, []);
    assert EncodeAll(cs) + [] == EncodeAll(cs) && cs + ParseAll([]).commands == cs;
  }

  /** Different sequences of commands are never printed as the same bytes. */
  lemma EncodeInjective(cs: seq<Command>, ds: seq<Command>)
    requires AllPrintable(cs) && AllPrintable(ds) && EncodeAll(cs) == EncodeAll(ds)
    ensures cs == ds
  {
    RoundTrip(cs);
    RoundTrip(ds);
  }

  // --- A log that loads to its end can be continued ---

  /** A line that ends before the end of the file is read the same when the file goes on. */
  lemma {:induction false} LineContinued(s: Bytes, u: Bytes, limit: nat)
    requires LineLength(s, limit) < |s|
    ensures LineLength(s + u, limit) == LineLength(s, limit)
  {
    assert (s + u)[0] == s[0];
    if limit > 0 && s[0] != LF {
      assert (s + u)[1..] == s[1..] + u;
      LineContinued(s[1..], u, limit - 1);
    }
  }

  lemma ParseArgContinued(s: Bytes, u: Bytes)
    requires ParseArg(s).Ok?
    ensures ParseArg(s + u) == Ok(ParseArg(s).value, ParseArg(s).rest + u)
  {
    hide LineLength, Strtol;
    var n := LineLength(s, LINE);
    LineContinued(s, u, LINE);
    assert (s + u)[0] == s[0] && (s + u)[1..n] == s[1..n] && (s + u)[n..] == s[n..] + u;
    var length := Unsigned(Strtol(s[1..n]));
    var t := s[n..];
    assert (t + u)[..length] == t[..length] && (t + u)[length + 2..] == t[length + 2..] + u;
  }

  lemma {:induction false} ParseArgsContinued(s: Bytes, u: Bytes, argc: nat)
    requires ParseArgs(s, argc).Ok?
    ensures ParseArgs(s + u, argc) == Ok(ParseArgs(s, argc).value, ParseArgs(s, argc).rest + u)
    decreases argc
  {
    hide ParseArg;
    if argc > 0 {
      ParseArgContinued(s, u);
      ParseArgsContinued(ParseArg(s).rest, u, argc - 1);
    }
  }

  lemma ParseCommandContinued(s: Bytes, u: Bytes)
    requires s != [] && ParseCommand(s).Ok?
    ensures ParseCommand(s + u) == Ok(ParseCommand(s).value, ParseCommand(s).rest + u)
  {
    hide LineLength, Strtol, Atoi, ParseArgs;
    var n := LineLength(s, LINE);
    if n == |s| {
      assert s[n..] == [];
      NoArgs(Atoi(s[1..n]));
    }
    LineContinued(s, u, LINE);
    assert (s + u)[0] == s[0] && (s + u)[1..n] == s[1..n] && (s + u)[n..] == s[n..] + u;
    ParseArgsContinued(s[n..], u, Atoi(s[1..n]));
  }

  /** Whatever wrote the log, if it loads to its end then what is appended is parsed on its own. */
  lemma {:induction false} ParseContinued(s: Bytes, u: Bytes)
    requires ParseAll(s).ending.Complete?
    ensures ParseAll(s + u) == Log(ParseAll(s).commands + ParseAll(u).commands, ParseAll(u).ending)
    decreases |s|
  {
    hide ParseCommand;
    if s == [] {
      assert s + u == u && [] + ParseAll(u).commands == ParseAll(u).commands;
    } else {
      var p := ParseCommand(s);
      ParseCommandContinued(s, u);
      ParseContinued(p.rest, u);
      assert [p.value] + (ParseAll(p.rest).commands + ParseAll(u).commands)
          == [p.value] + ParseAll(p.rest).commands + ParseAll(u).commands;
    }
  }

  // --- What is parsed fits ---

  lemma {:induction false} ParseArgsFit(s: Bytes, argc: nat)
    requires ParseArgs(s, argc).Ok?
    ensures |ParseArgs(s, argc).value| == argc
    ensures forall i | 0 <= i < argc :: |ParseArgs(s, argc).value[i]| <= |s|
    decreases argc
  {
    if argc > 0 {
      hide LineLength, Strtol;
      ParseArgsFit(ParseArg(s).rest, argc - 1);
    }
  }

  lemma ParseCommandFits(s: Bytes)
    requires s != [] && |s| <= LONG_MAX && ParseCommand(s).Ok?
    ensures Printable(ParseCommand(s).value)
  {
    hide LineLength, Strtol, ParseArgs;
    var n := LineLength(s, LINE);
    ParseArgsFit(s[n..], Atoi(s[1..n]));
  }

  lemma {:induction false} ParseAllFits(s: Bytes)
    requires |s| <= LONG_MAX
    ensures AllPrintable(ParseAll(s).commands)
    decreases |s|
  {
    hide ParseCommand, Printable;
    if s != [] && ParseCommand(s).Ok? {
      ParseCommandFits(s);
      ParseAllFits(ParseCommand(s).rest);
    }
  }

  // --- A log that was cut short is noticed ---

  lemma ParseArgCut(a: Bytes, k: nat)
    requires |a| <= LONG_MAX && k < |EncodeArg(a)|
    ensures !ParseArg(EncodeArg(a)[..k]).Ok?
  {
    var h := Header(DOLLAR, |a|);
    var s := EncodeArg(a)[..k];
    if k < |h| {
      assert s == h[..k];
      HeaderCut(DOLLAR, |a|, k);
    } else {
      assert s == h + s[|h|..];
      HeaderLine(DOLLAR, |a|, s[|h|..]);
    }
  }

  lemma {:induction false} ParseArgsCut(args: seq<Bytes>, k: nat)
    requires forall i | 0 <= i < |args| :: |args[i]| <= LONG_MAX
    requires k < |EncodeArgs(args)|
    ensures !ParseArgs(EncodeArgs(args)[..k], |args|).Ok?
  {
    hide EncodeArg, ParseArg;
    var first := EncodeArg(args[0]);
    if k < |first| {
      assert EncodeArgs(args)[..k] == first[..k];
      ParseArgCut(args[0], k);
    } else {
      var u := EncodeArgs(args[1..])[..k - |first|];
      assert EncodeArgs(args)[..k] == first + u;
      ParseArgOf(args[0], u);
      ParseArgsCut(args[1..], k - |first|);
    }
  }

  lemma NoArgs(argc: nat)
    requires argc >= 1
    ensures !ParseArgs([], argc).Ok?
  {
  }

  lemma ParseCommandCut(c: Command, k: nat)
    requires Printable(c) && 0 < k < |Encode(c)|
    ensures !ParseCommand(Encode(c)[..k]).Ok?
  {
    hide EncodeArgs, ParseArgs, Dec, Strtol, LineLength;
    var h := Header(STAR, |c|);
    var s := Encode(c)[..k];
    if k < |h| {
      assert s == h[..k];
      HeaderCut(STAR, |c|, k);
      assert s[k..] == [];
      if Atoi(s[1..k]) >= 1 {
        NoArgs(Atoi(s[1..k]));
      }
    } else {
      assert s == h + EncodeArgs(c)[..k - |h|];
      HeaderLine(STAR, |c|, EncodeArgs(c)[..k - |h|]);
      assert s[|h|..] == EncodeArgs(c)[..k - |h|];
      ParseArgsCut(c, k - |h|);
    }
  }

  /** A log that ends inside a command is refused, and no part of that command is executed. */
  lemma TruncationDetected(cs: seq<Command>, c: Command, k: nat)
    requires AllPrintable(cs) && Printable(c) && 0 < k < |Encode(c)|
    ensures ParseAll(EncodeAll(cs) + Encode(c)[..k]).commands == cs
    ensures ParseAll(EncodeAll(cs) + Encode(c)[..k]).ending != Complete
  {
    ParseAfter(cs, Encode(c)[..k]);
    ParseCommandCut(c, k);
    assert cs + [] == cs;
  }

  lemma {:induction false} EncodeArgsAppend(a: seq<Bytes>, b: seq<Bytes>)
    ensures EncodeArgs(a + b) == EncodeArgs(a) + EncodeArgs(b)
  {
    hide EncodeArg;
    if a == [] {
      assert a + b == b;
    } else {
      EncodeArgsAppend(a[1..], b);
      assert (a + b)[1..] == a[1..] + b;
      assert (a + b)[0] == a[0];
      assert EncodeArgs(a + b) == EncodeArg(a[0]) + EncodeArgs(a[1..] + b);
    }
  }

  lemma {:induction false} EncodeAllAppend(a: seq<Command>, b: seq<Command>)
    ensures EncodeAll(a + b) == EncodeAll(a) + EncodeAll(b)
  {
    hide Encode;
    if a == [] {
      assert a + b == b;
    } else {
      EncodeAllAppend(a[1..], b);
      assert (a + b)[1..] == a[1..] + b;
      assert (a + b)[0] == a[0];
      assert EncodeAll(a + b) == Encode(a[0]) + EncodeAll(a[1..] + b);
    }
  }

  // --- The loop of the loader ---

  method ReadArg(s: Bytes) returns (p: Parsed<Bytes>)
    ensures p == ParseArg(s)
  {
    hide LineLength, Strtol;
    if s == [] {
      return ReadError;
    }
    if s[0] != DOLLAR {
      return FormatError;
    }
    var n := LineLength(s, LINE);
    var length := Unsigned(Strtol(s[1..n]));
    var t := s[n..];
    if length > 0 && |t| < length {
      return FormatError;
    }
    var arg := t[..length];
    var rest := t[length..];
    if |rest| < 2 {
      return FormatError;
    }
    return Ok(arg, rest[2..]);
  }

  /** The command at the front of what is left of the file, as the loop of `loadAppendOnlyFile` reads it. */
  method ReadCommand(s: Bytes) returns (p: Parsed<Command>)
    requires s != []
    ensures p == ParseCommand(s)
  {
    hide LineLength, Strtol, Atoi, ParseArg, Resume;
    if s[0] != STAR {
      return FormatError;
    }
    var n := LineLength(s, LINE);
    var argc := Atoi(s[1..n]);
    if argc < 1 {
      return FormatError;
    }
    var rest, argv := s[n..], [];
    var j := 0;
    ResumeNothing(ParseArgs(rest, argc));
    while j < argc
      invariant 0 <= j <= argc
      invariant ParseArgs(s[n..], argc) == Resume(argv, ParseArgs(rest, argc - j))
    {
      var arg := ReadArg(rest);
      ResumeArg(argv, rest, argc - j);
      if arg.ReadError? {
        return ReadError;
      }
      if arg.FormatError? {
        return FormatError;
      }
      argv := argv + [arg.value];
      rest := arg.rest;
      j := j + 1;
    }
    ResumeEnd(argv, rest);
    return Ok(argv, rest);
  }

  /** The outcome of parsing after the arguments in `argv`. */
  function Resume(argv: seq<Bytes>, p: Parsed<seq<Bytes>>): Parsed<seq<Bytes>> {
    if p.Ok? then Ok(argv + p.value, p.rest) else p
  }

  lemma ResumeNothing(p: Parsed<seq<Bytes>>)
    ensures Resume([], p) == p
  {
    assert p.Ok? ==> [] + p.value == p.value;
  }

  lemma ResumeEnd(argv: seq<Bytes>, rest: Bytes)
    ensures Resume(argv, ParseArgs(rest, 0)) == Ok(argv, rest)
  {
    assert argv + [] == argv;
  }

  lemma ResumeArg(argv: seq<Bytes>, rest: Bytes, argc: nat)
    requires argc > 0
    ensures match ParseArg(rest)
            case ReadError => Resume(argv, ParseArgs(rest, argc)) == ReadError
            case FormatError => Resume(argv, ParseArgs(rest, argc)) == FormatError
            case Ok(arg, t) => Resume(argv, ParseArgs(rest, argc)) == Resume(argv + [arg], ParseArgs(t, argc - 1))
  {
    hide ParseArg;
    if ParseArg(rest).Ok? {
      var arg, p := ParseArg(rest).value, ParseArgs(ParseArg(rest).rest, argc - 1);
      assert p.Ok? ==> argv + ([arg] + p.value) == argv + [arg] + p.value;
    }
  }
}
