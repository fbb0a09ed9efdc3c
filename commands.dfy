/** The command line of cli/commands.go: Execute splits a line into
    whitespace-separated fields (strings.Fields), takes the first as the
    command and the rest as its arguments, checks the argument count, parses
    the count of top/recent with strconv.Atoi, and dispatches into the
    service. Parsing is a function from the line to a command or an error;
    Execute then runs the command against the store. */
module Cli {
  import opened Videos
  import RepoSpec
  import ViewService

  // ---------------------------------------------------------------------
  // strings.Fields

  /** unicode.IsSpace: the Unicode White_Space characters. */
  predicate IsSpace(c: char)
  {
    || c == '\t' || c == '\n' || c == '\U{000B}' || c == '\U{000C}' || c == '\r' || c == ' '
    || c == '\U{0085}' || c == '\U{00A0}' || c == '\U{1680}'
    || ('\U{2000}' <= c <= '\U{200A}')
    || c == '\U{2028}' || c == '\U{2029}' || c == '\U{202F}' || c == '\U{205F}' || c == '\U{3000}'
  }

  predicate NoSpace(w: string)
  {
    forall i :: 0 <= i < |w| ==> !IsSpace(w[i])
  }

  /** The longest prefix of s without white space. */
  function Word(s: string): (w: string)
    ensures |w| <= |s| && w == s[..|w|] && NoSpace(w)
    ensures |w| < |s| ==> IsSpace(s[|w|])
  {
    if |s| == 0 || IsSpace(s[0]) then [] else [s[0]] + Word(s[1..])
  }

  /** strings.Fields: the maximal runs of non-white-space characters, in
      order. */
  function Fields(s: string): (r: seq<string>)
    ensures forall i :: 0 <= i < |r| ==> |r[i]| > 0 && NoSpace(r[i])
    decreases |s|
  {
    if |s| == 0 then []
    else if IsSpace(s[0]) then Fields(s[1..])
    else
      var w := Word(s);
      [w] + Fields(s[|w|..])
  }

  /** Fields finds nothing exactly when the line is empty or all white
      space. */
  lemma {:induction false} FieldsEmptyIff(s: string)
    ensures Fields(s) == [] <==> forall i :: 0 <= i < |s| ==> IsSpace(s[i])
    decreases |s|
  {
    if |s| > 0 {
      FieldsEmptyIff(s[1..]);
      if IsSpace(s[0]) {
        assert forall i :: 1 <= i < |s| ==> s[i] == s[1..][i - 1];
      }
    }
  }

  /** Words joined by single spaces. */
  function Join(ws: seq<string>): string
  {
    if |ws| == 0 then [] else if |ws| == 1 then ws[0] else ws[0] + " " + Join(ws[1..])
  }

  lemma WordOfPrefix(w: string, rest: string)
    requires NoSpace(w) && (rest == [] || IsSpace(rest[0]))
    ensures Word(w + rest) == w
    decreases |w|
  {
    if |w| > 0 {
      WordOfPrefix(w[1..], rest);
      assert (w + rest)[1..] == w[1..] + rest;
    }
  }

  /** A word, a space and the rest split into the word and the rest's fields. */
  lemma FieldsOfSpaced(w: string, rest: string)
    requires |w| > 0 && NoSpace(w)
    ensures Fields(w + " " + rest) == [w] + Fields(rest)
  {
    var tail := " " + rest;
    var line := w + tail;
    assert w + " " + rest == line;
    WordOfPrefix(w, tail);
    assert line[0] == w[0];
    assert line[|w|..] == tail;
    assert tail[1..] == rest;
  }

  /** A single word is its own only field. */
  lemma FieldsOfWord(w: string)
    requires |w| > 0 && NoSpace(w)
    ensures Fields(w) == [w]
  {
    WordOfPrefix(w, []);
    assert w + [] == w;
    assert w[|w|..] == [];
  }

  /** Fields undoes Join: words without white space, joined by spaces, split
      back into the same words. */
  lemma {:induction false} FieldsOfJoin(ws: seq<string>)
    requires forall i :: 0 <= i < |ws| ==> |ws[i]| > 0 && NoSpace(ws[i])
    ensures Fields(Join(ws)) == ws
    decreases |ws|
  {
    if |ws| == 1 {
      FieldsOfWord(ws[0]);
    } else if |ws| > 1 {
      FieldsOfSpaced(ws[0], Join(ws[1..]));
      FieldsOfJoin(ws[1..]);
      assert ws == [ws[0]] + ws[1..];
    }
  }

  // ---------------------------------------------------------------------
  // strconv.Atoi on a 64-bit platform

  const MaxUint64: nat := 0xFFFF_FFFF_FFFF_FFFF
  const MaxInt64: int := 0x7FFF_FFFF_FFFF_FFFF
  const MinInt64: int := -0x8000_0000_0000_0000

  /** The two failures strconv reports (ErrSyntax, ErrRange). */
  datatype NumError = ErrSyntax | ErrRange

  predicate IsDigit(c: char)
  {
    '0' <= c <= '9'
  }

  function DigitValue(c: char): nat
    requires IsDigit(c)
  {
    (c as int) - ('0' as int)
  }

  function Pow10(k: nat): (p: nat)
    ensures p >= 1
  {
    if k == 0 then 1 else 10 * Pow10(k - 1)
  }

  /** The number a run of digits denotes, read left to right onto n. */
  function Value(s: string, n: nat): nat
    requires forall i :: 0 <= i < |s| ==> IsDigit(s[i])
    decreases |s|
  {
    if |s| == 0 then n else Value(s[1..], 10 * n + DigitValue(s[0]))
  }

  /** ParseUint's loop for base 10 and 64 bits, continuing from n: a
      non-digit is a syntax error with value 0; before each step, n at or
      above the cutoff MaxUint64 / 10 + 1, or a new value above MaxUint64,
      stops at once with MaxUint64 and ErrRange, whatever follows. */
  function UintDigits(s: string, n: nat): (r: (nat, Option<NumError>))
    requires n <= MaxUint64
    ensures r.0 <= MaxUint64
    decreases |s|
  {
    if |s| == 0 then (n, None)
    else if !IsDigit(s[0]) then (0, Some(ErrSyntax))
    else if n >= MaxUint64 / 10 + 1 then (MaxUint64, Some(ErrRange))
    else
      var n1 := 10 * n + DigitValue(s[0]);
      if n1 > MaxUint64 then (MaxUint64, Some(ErrRange)) else UintDigits(s[1..], n1)
  }

  /** strconv.ParseUint(s, 10, 64). */
  function ParseUint(s: string): (r: (nat, Option<NumError>))
    ensures r.0 <= MaxUint64
  {
    if |s| == 0 then (0, Some(ErrSyntax)) else UintDigits(s, 0)
  }

  /** strconv.ParseInt(s, 10, 64): an optional sign, ParseUint on the rest;
      a syntax error gives 0, a magnitude out of range gives MaxInt64 or
      MinInt64 with ErrRange. */
  function ParseInt(s: string): (r: (int, Option<NumError>))
    ensures MinInt64 <= r.0 <= MaxInt64
  {
    if |s| == 0 then (0, Some(ErrSyntax))
    else
      var neg := s[0] == '-';
      var body := if s[0] == '+' || s[0] == '-' then s[1..] else s;
      var u := ParseUint(body);
      if u.1 == Some(ErrSyntax) then (0, Some(ErrSyntax))
      else if !neg && u.0 >= 0x8000_0000_0000_0000 then (MaxInt64, Some(ErrRange))
      else if neg && u.0 > 0x8000_0000_0000_0000 then (MinInt64, Some(ErrRange))
      else ((if neg then -(u.0 as int) else u.0 as int), u.1)
  }

  /** The number of bytes of the UTF-8 encoding of s (Go's len). */
  function Utf8Len(s: string): (k: nat)
    ensures k >= |s|
  {
    if |s| == 0 then 0
    else
      var c := s[0] as int;
      (if c < 0x80 then 1 else if c < 0x800 then 2 else if c < 0x10000 then 3 else 4) + Utf8Len(s[1..])
  }

  /** Atoi's fast path loop: digits only, no overflow check. */
  function FastDigits(s: string, n: nat): (r: (nat, Option<NumError>))
    ensures r.1 == None || r.1 == Some(ErrSyntax)
    decreases |s|
  {
    if |s| == 0 then (n, None)
    else if !IsDigit(s[0]) then (0, Some(ErrSyntax))
    else FastDigits(s[1..], 10 * n + DigitValue(s[0]))
  }

  /** Atoi's fast path, taken for inputs of 1 to 18 bytes. */
  function FastAtoi(s: string): (r: (int, Option<NumError>))
    requires |s| > 0
  {
    var body := if s[0] == '+' || s[0] == '-' then s[1..] else s;
    if |body| < 1 then (0, Some(ErrSyntax))
    else
      var u := FastDigits(body, 0);
      if u.1.Some? then (0, u.1)
      else ((if s[0] == '-' then -(u.0 as int) else u.0 as int), None)
  }

  /** strconv.Atoi: the fast path for short inputs, ParseInt otherwise. */
  function Atoi(s: string): (int, Option<NumError>)
  {
    if 0 < Utf8Len(s) < 19 then FastAtoi(s) else ParseInt(s)
  }

  /** Value keeps what it starts from, scaled. */
  lemma {:induction false} ValueAtLeast(s: string, n: nat)
    requires forall i :: 0 <= i < |s| ==> IsDigit(s[i])
    ensures Value(s, n) >= n * Pow10(|s|)
    decreases |s|
  {
    if |s| > 0 {
      var n1 := 10 * n + DigitValue(s[0]);
      ValueAtLeast(s[1..], n1);
      assert n1 * Pow10(|s| - 1) >= (10 * n) * Pow10(|s| - 1);
      assert (10 * n) * Pow10(|s| - 1) == n * Pow10(|s|);
    }
  }

  /** Digits whose value fits in 64 bits parse to that value. */
  lemma {:induction false} UintDigitsInRange(s: string, n: nat)
    requires n <= MaxUint64 && forall i :: 0 <= i < |s| ==> IsDigit(s[i])
    requires Value(s, n) <= MaxUint64
    ensures UintDigits(s, n) == (Value(s, n), None)
    decreases |s|
  {
    if |s| > 0 {
      var n1 := 10 * n + DigitValue(s[0]);
      ValueAtLeast(s[1..], n1);
      assert n1 <= MaxUint64;
      UintDigitsInRange(s[1..], n1);
    }
  }

  /** Digits whose value does not fit in 64 bits stop with ErrRange and
      MaxUint64. */
  lemma {:induction false} UintDigitsOutOfRange(s: string, n: nat)
    requires n <= MaxUint64 && forall i :: 0 <= i < |s| ==> IsDigit(s[i])
    requires Value(s, n) > MaxUint64
    ensures UintDigits(s, n) == (MaxUint64, Some(ErrRange))
    decreases |s|
  {
    if |s| > 0 {
      var n1 := 10 * n + DigitValue(s[0]);
      if n < MaxUint64 / 10 + 1 && n1 <= MaxUint64 {
        UintDigitsOutOfRange(s[1..], n1);
      }
    }
  }

  const Ten19: nat := 10_000_000_000_000_000_000

  lemma Pow10Add(i: nat, j: nat)
    ensures Pow10(i + j) == Pow10(i) * Pow10(j)
    decreases i
  {
    if i > 0 {
      Pow10Add(i - 1, j);
      assert Pow10(i + j) == 10 * (Pow10(i - 1) * Pow10(j));
    }
  }

  lemma Pow10Values()
    ensures Pow10(18) == 1_000_000_000_000_000_000 && Pow10(19) == Ten19
  {
    assert Pow10(3) == 1000;
    Pow10Add(3, 3);
    Pow10Add(6, 3);
    Pow10Add(9, 9);
  }

  lemma MulMono(a: nat, q: nat, r: nat)
    requires q <= r
    ensures a * q <= a * r
  {
  }

  /** One more digit multiplies the bound by ten. */
  lemma ScaleStep(n: nat, n1: nat, p: nat)
    requires n1 <= 10 * n + 9
    ensures (n1 + 1) * p <= (n + 1) * (10 * p)
  {
    assert (n1 + 1) * p <= (10 * n + 10) * p;
    assert (10 * n + 10) * p == (n + 1) * (10 * p);
  }

  /** On short inputs the fast loop and ParseUint's loop agree, and the value
      stays below (n + 1) * 10^|s|. */
  lemma {:induction false} FastDigitsAgree(s: string, n: nat)
    requires n <= MaxUint64 && (n + 1) * Pow10(|s|) <= Ten19
    ensures FastDigits(s, n) == UintDigits(s, n)
    ensures FastDigits(s, n).0 < (n + 1) * Pow10(|s|)
    decreases |s|
  {
    if |s| > 0 && IsDigit(s[0]) {
      var n1 := 10 * n + DigitValue(s[0]);
      var p := Pow10(|s| - 1);
      assert Pow10(|s|) == 10 * p;
      ScaleStep(n, n1, p);
      MulMono(n + 1, 10, 10 * p);
      assert n1 < Ten19;
      FastDigitsAgree(s[1..], n1);
    }
  }

  lemma Pow10Grows(i: nat, j: nat)
    requires i <= j
    ensures Pow10(i) <= Pow10(j)
    decreases j
  {
    if i < j {
      Pow10Grows(i, j - 1);
    }
  }

  /** Atoi agrees with ParseInt on every input: the fast path is only a
      shortcut. */
  lemma AtoiIsParseInt(s: string)
    ensures Atoi(s) == ParseInt(s)
  {
    if 0 < Utf8Len(s) < 19 {
      var body := if s[0] == '+' || s[0] == '-' then s[1..] else s;
      if |body| > 0 {
        Pow10Grows(|body|, 18);
        Pow10Values();
        assert (0 + 1) * Pow10(|body|) <= Ten19;
        FastDigitsAgree(body, 0);
        assert ParseUint(body) == FastDigits(body, 0);
        assert FastDigits(body, 0).0 < 0x8000_0000_0000_0000;
      }
    }
  }

  /** The decimal numeral of k, without leading zeros. */
  function Decimal(k: nat): (d: string)
    ensures |d| > 0 && forall i :: 0 <= i < |d| ==> IsDigit(d[i])
  {
    var c := (('0' as int) + k % 10) as char;
    if k < 10 then [c] else Decimal(k / 10) + [c]
  }

  /** strconv.Itoa: the numeral, with '-' in front of a negative one. */
  function Itoa(n: int): string
  {
    if n < 0 then "-" + Decimal(-n) else Decimal(n)
  }

  lemma {:induction false} ValueAppend(a: string, b: string, n: nat)
    requires forall i :: 0 <= i < |a| ==> IsDigit(a[i])
    requires forall i :: 0 <= i < |b| ==> IsDigit(b[i])
    ensures forall i :: 0 <= i < |a + b| ==> IsDigit((a + b)[i])
    ensures Value(a + b, n) == Value(b, Value(a, n))
    decreases |a|
  {
    assert forall i :: 0 <= i < |a + b| ==> IsDigit((a + b)[i]) by {
      forall i | 0 <= i < |a + b| ensures IsDigit((a + b)[i]) {
        if i < |a| { assert (a + b)[i] == a[i]; } else { assert (a + b)[i] == b[i - |a|]; }
      }
    }
    if |a| > 0 {
      var n1 := 10 * n + DigitValue(a[0]);
      assert (a + b)[0] == a[0] && (a + b)[1..] == a[1..] + b;
      ValueAppend(a[1..], b, n1);
      assert Value(a + b, n) == Value(a[1..] + b, n1);
      assert Value(a, n) == Value(a[1..], n1);
    } else {
      assert a + b == b;
    }
  }

  /** Reading a numeral back gives the number. */
  lemma {:induction false} ValueOfDecimal(k: nat)
    ensures Value(Decimal(k), 0) == k
  {
    var c := (('0' as int) + k % 10) as char;
    if k >= 10 {
      ValueOfDecimal(k / 10);
      ValueAppend(Decimal(k / 10), [c], 0);
    }
  }

  /** Atoi undoes Itoa on every 64-bit integer. */
  lemma AtoiOfItoa(n: int)
    requires MinInt64 <= n <= MaxInt64
    ensures Atoi(Itoa(n)) == (n, None)
  {
    AtoiIsParseInt(Itoa(n));
    var m: nat := if n < 0 then -n else n;
    ValueOfDecimal(m);
    UintDigitsInRange(Decimal(m), 0);
    if n < 0 {
      assert ("-" + Decimal(m))[1..] == Decimal(m);
    } else {
      assert Decimal(m)[0] != '-' && Decimal(m)[0] != '+';
    }
  }

  /** The text after an optional sign. */
  function Unsigned(s: string): string
  {
    if |s| > 0 && (s[0] == '+' || s[0] == '-') then s[1..] else s
  }

  /** Input that does not start with a digit (after an optional sign) is a
      syntax error with value 0; so `top x` asks for 0 videos. */
  lemma AtoiNotNumber(s: string)
    requires Unsigned(s) == [] || !IsDigit(Unsigned(s)[0])
    ensures Atoi(s) == (0, Some(ErrSyntax))
  {
    AtoiIsParseInt(s);
  }

  /** A numeral too large for 64 bits is clamped: to MaxInt64 without a
      sign, to MinInt64 after '-', with ErrRange either way. */
  lemma AtoiClamps(s: string)
    requires |s| > 0 && forall i :: 0 <= i < |s| ==> IsDigit(s[i])
    ensures Value(s, 0) > MaxInt64 ==> Atoi(s) == (MaxInt64, Some(ErrRange))
    ensures Value(s, 0) > -MinInt64 ==> Atoi("-" + s) == (MinInt64, Some(ErrRange))
  {
    AtoiIsParseInt(s);
    AtoiIsParseInt("-" + s);
    assert ("-" + s)[1..] == s;
    if Value(s, 0) <= MaxUint64 {
      UintDigitsInRange(s, 0);
    } else {
      UintDigitsOutOfRange(s, 0);
    }
  }

  // ---------------------------------------------------------------------
  // Execute

  /** A parsed line: the command and its argument. */
  datatype Command =
    | GetViewCmd(id: string)
    | GetAllCmd
    | IncreCmd(id: string)
    | TopCmd(n: int)
    | RecentCmd(n: int)

  /** What a line parses to: a command, an error Execute returns, or a
      panic (top/recent without an argument index past the end of args). */
  datatype Parsed = Cmd(cmd: Command) | Error(msg: string) | Panic(reason: string)

  /** Execute's parsing: the field split, the switch on the first field, the
      argument-count checks and the Atoi of top/recent, whose error is
      ignored. */
  function Parse(input: string): Parsed
  {
    var parts := Fields(input);
    if |parts| == 0 then Error("no command provided")
    else
      var cmd := parts[0];
      var args := parts[1..];
      if cmd == "getView" then
        if |args| != 1 then Error("get-view requires exactly one argument") else Cmd(GetViewCmd(args[0]))
      else if cmd == "getAll" then Cmd(GetAllCmd)
      else if cmd == "incre" then
        if |args| != 1 then Error("increment-view requires exactly one argument") else Cmd(IncreCmd(args[0]))
      else if cmd == "top" then
        if |args| == 0 then Panic("index out of range") else Cmd(TopCmd(Atoi(args[0]).0))
      else if cmd == "recent" then
        if |args| == 0 then Panic("index out of range") else Cmd(RecentCmd(Atoi(args[0]).0))
      else Error("unknown command: " + cmd)
  }

  /** What a helper got back from the service (and would print). */
  datatype Reply =
    | ViewReply(views: nat, err: Option<ViewService.ServiceError>)
    | AllViewsReply(all: map<string, nat>)
    | IncrementReply(err: Option<ViewService.ServiceError>)
    | VideosReply(videos: seq<VideoInfo>)

  /** How Execute ends: nil (with what the helper got), an error, or a
      panic. */
  datatype Outcome = Done(reply: Reply) | Failed(msg: string) | Panicked(reason: string)

  /** One command against the service: the helpers getView, getAllViews,
      incrementView, getTopViews and getRecentViews. A negative count reaches
      the store, whose make panics. */
  function Run(s: RepoSpec.RepoState, c: Command): (Outcome, RepoSpec.RepoState)
  {
    match c
    case GetViewCmd(id) =>
      var r := ViewService.GetView(s, id);
      (Done(ViewReply(r.0, r.1)), s)
    case GetAllCmd => (Done(AllViewsReply(ViewService.GetAllViews(s))), s)
    case IncreCmd(id) =>
      var r := ViewService.Increment(s, id);
      (Done(IncrementReply(r.0)), r.1)
    case TopCmd(n) =>
      if n < 0 then (Panicked("makeslice: len out of range"), s)
      else (Done(VideosReply(ViewService.GetTopVideos(s, n))), s)
    case RecentCmd(n) =>
      if n < 0 then (Panicked("makeslice: len out of range"), s)
      else (Done(VideosReply(ViewService.GetRecentVideos(s, n))), s)
  }

  /** Execute(svc, input) over the in-memory store. */
  function Execute(s: RepoSpec.RepoState, input: string): (Outcome, RepoSpec.RepoState)
  {
    match Parse(input)
    case Cmd(c) => Run(s, c)
    case Error(msg) => (Failed(msg), s)
    case Panic(reason) => (Panicked(reason), s)
  }

  /** The commands Execute's switch knows. */
  predicate Known(cmd: string)
  {
    cmd == "getView" || cmd == "getAll" || cmd == "incre" || cmd == "top" || cmd == "recent"
  }

  /** A parsed command never fails: the helpers ignore the service's error. */
  lemma RunNeverFails(s: RepoSpec.RepoState, c: Command)
    ensures !Run(s, c).0.Failed?
  {
  }

  /** Execute fails with a message exactly when parsing does. */
  lemma FailsOnlyInParse(s: RepoSpec.RepoState, input: string, msg: string)
    ensures Execute(s, input).0 == Failed(msg) <==> Parse(input) == Error(msg)
  {
    if Parse(input).Cmd? {
      RunNeverFails(s, Parse(input).cmd);
    }
  }

  lemma ParseNoCommand(input: string)
    ensures Parse(input) == Error("no command provided") <==> Fields(input) == []
  {
    var parts := Fields(input);
    if |parts| > 0 {
      var u := "unknown command: " + parts[0];
      assert u[0] == 'u';
      assert u != "no command provided";
    }
  }

  /** An empty or all-white-space line is exactly the one that fails with
      "no command provided"; the store is then untouched. */
  lemma NoCommandIff(s: RepoSpec.RepoState, input: string)
    ensures Execute(s, input).0 == Failed("no command provided") <==> forall i :: 0 <= i < |input| ==> IsSpace(input[i])
    ensures Fields(input) == [] ==> Execute(s, input).1 == s
  {
    FieldsEmptyIff(input);
    FailsOnlyInParse(s, input, "no command provided");
    ParseNoCommand(input);
  }

  /** getView and incre need exactly one argument: with any other count the
      line fails with its message, no service call is made and the store is
      untouched. */
  lemma ArgumentCountChecked(s: RepoSpec.RepoState, input: string)
    requires |Fields(input)| > 0 && |Fields(input)| != 2
    ensures Fields(input)[0] == "getView" ==> Execute(s, input) == (Failed("get-view requires exactly one argument"), s)
    ensures Fields(input)[0] == "incre" ==> Execute(s, input) == (Failed("increment-view requires exactly one argument"), s)
  {
  }

  /** getAll ignores whatever follows it. */
  lemma GetAllIgnoresArguments(s: RepoSpec.RepoState, input: string)
    requires |Fields(input)| > 0 && Fields(input)[0] == "getAll"
    ensures Execute(s, input) == (Done(AllViewsReply(RepoSpec.GetAllViews(s))), s)
  {
  }

  /** top and recent read their count from the first argument with Atoi,
      ignoring its error, and index past the end of args without one. */
  lemma CountArgument(s: RepoSpec.RepoState, input: string)
    requires |Fields(input)| > 0 && (Fields(input)[0] == "top" || Fields(input)[0] == "recent")
    ensures |Fields(input)| == 1 ==> Execute(s, input) == (Panicked("index out of range"), s)
    ensures |Fields(input)| > 1 && Fields(input)[0] == "top" ==> Parse(input) == Cmd(TopCmd(Atoi(Fields(input)[1]).0))
    ensures |Fields(input)| > 1 && Fields(input)[0] == "recent" ==> Parse(input) == Cmd(RecentCmd(Atoi(Fields(input)[1]).0))
  {
  }

  /** A count that is not a number asks for zero videos: the reply is the
      empty list. */
  lemma NonNumericCount(s: RepoSpec.RepoState, input: string)
    requires |Fields(input)| > 1 && (Fields(input)[0] == "top" || Fields(input)[0] == "recent")
    requires !IsDigit(Fields(input)[1][0]) && Fields(input)[1][0] != '+' && Fields(input)[1][0] != '-'
    ensures Execute(s, input) == (Done(VideosReply([])), s)
  {
    AtoiNotNumber(Fields(input)[1]);
  }

  /** Any other first field fails with "unknown command: " and that field. */
  lemma UnknownCommand(s: RepoSpec.RepoState, input: string)
    requires |Fields(input)| > 0 && !Known(Fields(input)[0])
    ensures Execute(s, input) == (Failed("unknown command: " + Fields(input)[0]), s)
  {
  }

  /** A known command with the arguments it needs returns nil (Done), whatever
      the service answered; and since every field is non-empty, the service
      never rejects an id that came from the command line. */
  lemma KnownCommandReturnsNil(s: RepoSpec.RepoState, input: string)
    requires Parse(input).Cmd?
    requires !(Parse(input).cmd.TopCmd? || Parse(input).cmd.RecentCmd?) || Parse(input).cmd.n >= 0
    ensures Execute(s, input).0.Done?
    ensures Execute(s, input).0.reply.ViewReply? ==> Execute(s, input).0.reply.err == None
    ensures Execute(s, input).0.reply.IncrementReply? ==> Execute(s, input).0.reply.err == None
  {
    ParsedIdIsField(input);
    RunDone(s, Parse(input).cmd);
  }

  /** The id of a parsed getView or incre is a field, so it is not empty. */
  lemma ParsedIdIsField(input: string)
    ensures Parse(input).Cmd? && (Parse(input).cmd.GetViewCmd? || Parse(input).cmd.IncreCmd?) ==> |Parse(input).cmd.id| > 0
  {
    var parts := Fields(input);
    if |parts| > 1 {
      assert parts[1..][0] == parts[1];
    }
  }

  /** A command with a non-empty id and a non-negative count returns nil,
      and the service reports no error for it. */
  lemma RunDone(s: RepoSpec.RepoState, c: Command)
    requires (c.GetViewCmd? || c.IncreCmd?) ==> |c.id| > 0
    requires (c.TopCmd? || c.RecentCmd?) ==> c.n >= 0
    ensures Run(s, c).0.Done?
    ensures Run(s, c).0.reply.ViewReply? ==> Run(s, c).0.reply.err == None
    ensures Run(s, c).0.reply.IncrementReply? ==> Run(s, c).0.reply.err == None
  {
  }

  /** Only incre changes the store, and then exactly as the store's
      Increment; the store's invariant survives every line. */
  lemma ExecuteEffect(s: RepoSpec.RepoState, input: string)
    requires RepoSpec.Inv(s)
    ensures Parse(input).Cmd? && Parse(input).cmd.IncreCmd? ==> Execute(s, input).1 == RepoSpec.Increment(s, Parse(input).cmd.id)
    ensures !(Parse(input).Cmd? && Parse(input).cmd.IncreCmd?) ==> Execute(s, input).1 == s
    ensures RepoSpec.Inv(Execute(s, input).1)
  {
    if Parse(input).Cmd? {
      var c := Parse(input).cmd;
      ParsedIdIsField(input);
      RunEffect(s, c);
      if c.IncreCmd? {
        RepoSpec.IncrementPreservesInv(s, c.id);
      }
    }
  }

  /** A command changes the store only when it is incre with a non-empty id,
      and then by the store's Increment. */
  lemma RunEffect(s: RepoSpec.RepoState, c: Command)
    requires c.IncreCmd? ==> |c.id| > 0
    ensures c.IncreCmd? ==> Run(s, c).1 == RepoSpec.Increment(s, c.id)
    ensures !c.IncreCmd? ==> Run(s, c).1 == s
  {
  }

  /** The line a command is typed as. */
  function Render(c: Command): string
  {
    match c
    case GetViewCmd(id) => Join(["getView", id])
    case GetAllCmd => "getAll"
    case IncreCmd(id) => Join(["incre", id])
    case TopCmd(n) => Join(["top", Itoa(n)])
    case RecentCmd(n) => Join(["recent", Itoa(n)])
  }

  /** A command whose id is a single field and whose count is a 64-bit
      integer. */
  predicate Typeable(c: Command)
  {
    match c
    case GetViewCmd(id) => |id| > 0 && NoSpace(id)
    case GetAllCmd => true
    case IncreCmd(id) => |id| > 0 && NoSpace(id)
    case TopCmd(n) => MinInt64 <= n <= MaxInt64
    case RecentCmd(n) => MinInt64 <= n <= MaxInt64
  }

  lemma ItoaIsField(n: int)
    ensures |Itoa(n)| > 0 && NoSpace(Itoa(n))
  {
    var d := Decimal(if n < 0 then -n else n);
    var t := Itoa(n);
    forall i | 0 <= i < |t| ensures !IsSpace(t[i]) {
      if n < 0 && i == 0 {
        assert t[0] == '-';
      } else {
        var k := if n < 0 then i - 1 else i;
        assert t[i] == d[k];
        DigitNotSpace(d[k]);
      }
    }
  }

  lemma DigitNotSpace(c: char)
    requires IsDigit(c)
    ensures !IsSpace(c)
  {
  }

  /** A line of two fields, a command and its argument. */
  lemma FieldsOfPair(cmd: string, arg: string)
    requires |cmd| > 0 && NoSpace(cmd) && |arg| > 0 && NoSpace(arg)
    ensures Fields(Join([cmd, arg])) == [cmd, arg]
  {
    FieldsOfJoin([cmd, arg]);
  }

  lemma ParseOfRenderedId(c: Command)
    requires (c.GetViewCmd? || c.IncreCmd?) && Typeable(c)
    ensures Parse(Render(c)) == Cmd(c)
  {
    if c.GetViewCmd? {
      FieldsOfPair("getView", c.id);
    } else {
      FieldsOfPair("incre", c.id);
    }
  }

  lemma ParseOfRenderedCount(c: Command)
    requires (c.TopCmd? || c.RecentCmd?) && Typeable(c)
    ensures Parse(Render(c)) == Cmd(c)
  {
    if c.TopCmd? {
      ParseOfTop(c.n);
    } else {
      ParseOfRecent(c.n);
    }
  }

  lemma ParseOfTop(n: int)
    requires MinInt64 <= n <= MaxInt64
    ensures Parse(Join(["top", Itoa(n)])) == Cmd(TopCmd(n))
  {
    ItoaIsField(n);
    FieldsOfPair("top", Itoa(n));
    AtoiOfItoa(n);
  }

  lemma ParseOfRecent(n: int)
    requires MinInt64 <= n <= MaxInt64
    ensures Parse(Join(["recent", Itoa(n)])) == Cmd(RecentCmd(n))
  {
    ItoaIsField(n);
    FieldsOfPair("recent", Itoa(n));
    AtoiOfItoa(n);
  }

  /** Parsing undoes rendering: the typed line of a command parses back to
      the command. */
  lemma ParseOfRender(c: Command)
    requires Typeable(c)
    ensures Parse(Render(c)) == Cmd(c)
  {
    if c.GetAllCmd? {
      FieldsOfJoin(["getAll"]);
      assert Join(["getAll"]) == "getAll";
    } else if c.GetViewCmd? || c.IncreCmd? {
      ParseOfRenderedId(c);
    } else {
      ParseOfRenderedCount(c);
    }
  }
}
