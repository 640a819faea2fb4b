/** One access-log line into a `Log` record (src/parse_utils.py).

    LOG_PATTERN is a fixed sequence of thirteen named groups separated by runs of whitespace:
    `ip identd user [date] "request" status bytesize "referer" "user_agent" "forwarded_for"
    "req_id" "sess_id" duration`. It is matched at the start of the line only, so whatever
    follows the duration is ignored. The pattern is modelled as data (`LogPattern`), read by a
    left-to-right scanner (`Scan`), and described a second time declaratively (`Decomposes`,
    `Render`); the two are proved to agree in both directions. */
module ParseUtils {
  import opened Builtins

  // ---------------------------------------------------------------- the pattern as data

  /** The character classes of the pattern: `[\d\.]`, `\d` and `\S`. */
  datatype CharClass = DigitOrDot | Digit | NonSpace

  predicate InClass(c: char, cls: CharClass) {
    match cls
    case DigitOrDot => IsDigit(c) || c == '.'
    case Digit => IsDigit(c)
    case NonSpace => !IsSpace(c)
  }

  /** One named group: a run of one or more characters of a class (`[\d\.]+`, `\d+`, `\S+`),
      or a lazily matched `.*?` between an opening and a closing delimiter (`\[…\]`, `"…"`). */
  datatype Token = Run(cls: CharClass) | Enclosed(open: char, close: char)

  /** LOG_PATTERN, group by group (src/parse_utils.py:5-19). */
  const LogPattern: seq<Token> := [
    Run(DigitOrDot),        // ip
    Run(NonSpace),          // identd
    Run(NonSpace),          // user
    Enclosed('[', ']'),     // date
    Enclosed('"', '"'),     // request
    Run(Digit),             // status
    Run(NonSpace),          // bytesize
    Enclosed('"', '"'),     // referer
    Enclosed('"', '"'),     // user_agent
    Enclosed('"', '"'),     // forwarded_for
    Enclosed('"', '"'),     // req_id
    Enclosed('"', '"'),     // sess_id
    Run(DigitOrDot)         // duration
  ]

  /** Delimiters that are not whitespace: what makes the separators between groups unambiguous. */
  predicate ValidPattern(p: seq<Token>) {
    forall k :: 0 <= k < |p| && p[k].Enclosed? ==> !IsSpace(p[k].open) && !IsSpace(p[k].close)
  }

  // ---------------------------------------------------------------- the scanner

  /** The content of a delimited group, read after its opening delimiter: it ends at the first
      closing delimiter that is followed by whitespace, and, like `.`, it never crosses a newline.
      Returns the content and the text after the closing delimiter. */
  function TakeContent(s: string, close: char): (res: Option<(string, string)>)
    ensures res.Some? ==> s == res.value.0 + [close] + res.value.1
    ensures res.Some? ==> ContentFits(res.value.0, close)
    ensures res.Some? ==> res.value.1 != [] && IsSpace(res.value.1[0])
    decreases |s|
  {
    if s == [] then None
    else if s[0] == close && |s| > 1 && IsSpace(s[1]) then
      assert s == [] + [close] + s[1..];
      Some(([], s[1..]))
    else if s[0] == '\n' then None
    else
      match TakeContent(s[1..], close)
      case None => None
      case Some((g, r)) =>
        assert s == [s[0]] + s[1..];
        var g' := [s[0]] + g;
        assert ContentFits(g', close) by {
          forall i | 0 <= i < |g'|
            ensures g'[i] != '\n' && !(g'[i] == close && i + 1 < |g'| && IsSpace(g'[i + 1]))
          {
            if i > 0 {
              assert g'[i] == g[i - 1];
            } else if 1 < |g'| {
              assert g'[1] == s[1];
            }
          }
        }
        Some((g', r))
  }

  /** Reads one group at the start of `s`; returns the group and the unread text. */
  function TakeToken(t: Token, s: string): (res: Option<(string, string)>)
    ensures res.Some? ==> Fits(t, res.value.0) && s == Piece(t, res.value.0) + res.value.1
    ensures res.Some? ==> Stops(t, res.value.1)
  {
    match t
    case Run(cls) =>
      var (g, r) := Span(s, c => InClass(c, cls));
      if g == [] then None else Some((g, r))
    case Enclosed(o, c) =>
      if s != [] && s[0] == o then
        match TakeContent(s[1..], c)
        case None => None
        case Some((g, r)) =>
          assert s == [o] + s[1..];
          Some((g, r))
      else None
  }

  /** Matches `p` at the start of `s` (`re.match`): the groups, the whitespace separators between
      them, and the text after the last group. */
  function Scan(p: seq<Token>, s: string): Option<(seq<string>, seq<string>, string)>
    requires |p| > 0
    decreases |p|
  {
    match TakeToken(p[0], s)
    case None => None
    case Some((g, r)) =>
      if |p| == 1 then Some(([g], [], r))
      else
        var (sep, r2) := Span(r, IsSpace);
        if sep == [] then None
        else
          match Scan(p[1..], r2)
          case None => None
          case Some((gs, seps, rest)) => Some(([g] + gs, [sep] + seps, rest))
  }

  // ---------------------------------------------------------------- the grammar, declaratively

  /** What the lazy `.*?` of a delimited group can hold under the first-closer reading: no newline,
      and no closing delimiter followed by whitespace. */
  predicate ContentFits(g: string, close: char) {
    forall i :: 0 <= i < |g| ==> g[i] != '\n' && !(g[i] == close && i + 1 < |g| && IsSpace(g[i + 1]))
  }

  predicate Fits(t: Token, g: string) {
    match t
    case Run(cls) => |g| > 0 && forall i :: 0 <= i < |g| ==> InClass(g[i], cls)
    case Enclosed(_, c) => ContentFits(g, c)
  }

  /** What may follow a group: a character-class run cannot be extended, and a delimited group
      is followed by whitespace. */
  predicate Stops(t: Token, r: string) {
    match t
    case Run(cls) => r == [] || !InClass(r[0], cls)
    case Enclosed(_, _) => r != [] && IsSpace(r[0])
  }

  predicate IsSeparator(sep: string) {
    |sep| > 0 && forall i :: 0 <= i < |sep| ==> IsSpace(sep[i])
  }

  /** A group as it is written in the line. */
  function Piece(t: Token, g: string): string {
    match t
    case Run(_) => g
    case Enclosed(o, c) => [o] + g + [c]
  }

  /** The matched prefix of a line: groups written out with their separators between them. */
  function Render(p: seq<Token>, gs: seq<string>, seps: seq<string>): string
    requires |p| > 0 && |gs| == |p| && |seps| == |p| - 1
    decreases |p|
  {
    if |p| == 1 then Piece(p[0], gs[0])
    else Piece(p[0], gs[0]) + seps[0] + Render(p[1..], gs[1..], seps[1..])
  }

  /** `gs`, `seps` and `rest` are a way of reading a line against `p`. */
  predicate Decomposes(p: seq<Token>, gs: seq<string>, seps: seq<string>, rest: string) {
    && |p| > 0 && |gs| == |p| && |seps| == |p| - 1
    && (forall k :: 0 <= k < |p| ==> Fits(p[k], gs[k]))
    && (forall k :: 0 <= k < |seps| ==> IsSeparator(seps[k]))
    && Stops(p[|p| - 1], rest)
  }

  /** The line matches LOG_PATTERN at its start. */
  ghost predicate MatchesLogPattern(line: string) {
    exists gs, seps, rest :: Decomposes(LogPattern, gs, seps, rest) && line == Render(LogPattern, gs, seps) + rest
  }

  // ---------------------------------------------------------------- scanner and grammar agree

  lemma AppendAssoc(a: string, b: string, c: string, d: string)
    ensures a + b + c + d == a + (b + (c + d))
  {
  }

  /** A reading of the rest of the line extends by one group and one separator in front. */
  lemma ConsDecomposes(p: seq<Token>, g: string, sep: string, gs: seq<string>, seps: seq<string>, rest: string)
    requires |p| > 1 && Fits(p[0], g) && IsSeparator(sep) && Decomposes(p[1..], gs, seps, rest)
    ensures Decomposes(p, [g] + gs, [sep] + seps, rest)
    ensures Render(p, [g] + gs, [sep] + seps) + rest == Piece(p[0], g) + (sep + (Render(p[1..], gs, seps) + rest))
  {
    var gs', seps' := [g] + gs, [sep] + seps;
    var piece, tail := Piece(p[0], g), Render(p[1..], gs, seps);
    assert Render(p, gs', seps') == piece + sep + tail;
    AppendAssoc(piece, sep, tail, rest);
    assert gs'[1..] == gs && seps'[1..] == seps;
    assert p[1..][|p| - 2] == p[|p| - 1];
    forall k | 0 <= k < |p| ensures Fits(p[k], gs'[k]) {
      if k > 0 { assert p[k] == p[1..][k - 1] && gs'[k] == gs[k - 1]; }
    }
    forall k | 0 <= k < |seps'| ensures IsSeparator(seps'[k]) {
      if k > 0 { assert seps'[k] == seps[k - 1]; }
    }
  }

  /** Everything the scanner accepts is a reading of the line against the pattern. */
  lemma {:induction false} ScanSound(p: seq<Token>, s: string)
    requires |p| > 0
    ensures Scan(p, s).Some? ==>
      var (gs, seps, rest) := Scan(p, s).value;
      Decomposes(p, gs, seps, rest) && s == Render(p, gs, seps) + rest
    decreases |p|
  {
    var head := TakeToken(p[0], s);
    if head.Some? && |p| == 1 {
      var (g, r) := head.value;
      assert Scan(p, s) == Some(([g], [], r));
    } else if head.Some? {
      var (g, r) := head.value;
      var (sep, r2) := Span(r, IsSpace);
      ScanSound(p[1..], r2);
      var tail := Scan(p[1..], r2);
      if sep != [] && tail.Some? {
        var (gs, seps, rest) := tail.value;
        assert Scan(p, s) == Some(([g] + gs, [sep] + seps, rest));
        ConsDecomposes(p, g, sep, gs, seps, rest);
      }
    }
  }

  lemma SpaceOutsideClasses(c: char, cls: CharClass)
    requires IsSpace(c)
    ensures !InClass(c, cls)
  {
  }

  lemma {:induction false} TakeContentComplete(g: string, close: char, r: string)
    requires ContentFits(g, close) && !IsSpace(close)
    requires r != [] && IsSpace(r[0])
    ensures TakeContent(g + [close] + r, close) == Some((g, r))
    decreases |g|
  {
    var s := g + [close] + r;
    if g == [] {
      assert s == [close] + r;
      assert s[1..] == r;
    } else {
      assert s[0] == g[0];
      assert s[1..] == g[1..] + [close] + r;
      assert ContentFits(g[1..], close) by {
        forall i | 0 <= i < |g[1..]|
          ensures g[1..][i] != '\n' && !(g[1..][i] == close && i + 1 < |g[1..]| && IsSpace(g[1..][i + 1]))
        {
          assert g[1..][i] == g[i + 1];
          if i + 1 < |g[1..]| { assert g[1..][i + 1] == g[i + 2]; }
        }
      }
      assert !(s[0] == close && IsSpace(s[1])) by {
        if |g| > 1 { assert s[1] == g[1]; } else { assert s[1] == close; }
      }
      TakeContentComplete(g[1..], close, r);
      assert g == [g[0]] + g[1..];
    }
  }

  lemma TakeTokenComplete(t: Token, g: string, r: string)
    requires Fits(t, g) && Stops(t, r)
    requires t.Enclosed? ==> !IsSpace(t.close)
    ensures TakeToken(t, Piece(t, g) + r) == Some((g, r))
  {
    match t
    case Run(cls) =>
      SpanExact(g, r, c => InClass(c, cls));
    case Enclosed(o, c) =>
      var s := Piece(t, g) + r;
      assert s[1..] == g + [c] + r;
      TakeContentComplete(g, c, r);
  }

  /** The first group and separator split off a reading of the line. */
  lemma UnconsDecomposes(p: seq<Token>, gs: seq<string>, seps: seq<string>, rest: string)
    requires Decomposes(p, gs, seps, rest) && |p| > 1
    ensures Decomposes(p[1..], gs[1..], seps[1..], rest)
    ensures Fits(p[0], gs[0]) && IsSeparator(seps[0])
    ensures Render(p, gs, seps) + rest
      == Piece(p[0], gs[0]) + (seps[0] + (Render(p[1..], gs[1..], seps[1..]) + rest))
  {
    assert p[1..][|p| - 2] == p[|p| - 1];
    forall k | 0 <= k < |p| - 1 ensures Fits(p[1..][k], gs[1..][k]) {
      assert p[1..][k] == p[k + 1] && gs[1..][k] == gs[k + 1];
    }
    forall k | 0 <= k < |seps| - 1 ensures IsSeparator(seps[1..][k]) {
      assert seps[1..][k] == seps[k + 1];
    }
    AppendAssoc(Piece(p[0], gs[0]), seps[0], Render(p[1..], gs[1..], seps[1..]), rest);
  }

  lemma ValidPatternTail(p: seq<Token>)
    requires ValidPattern(p) && |p| > 0
    ensures ValidPattern(p[1..]) && (p[0].Enclosed? ==> !IsSpace(p[0].open) && !IsSpace(p[0].close))
  {
    forall k | 0 <= k < |p| - 1 && p[1..][k].Enclosed?
      ensures !IsSpace(p[1..][k].open) && !IsSpace(p[1..][k].close)
    {
      assert p[1..][k] == p[k + 1];
    }
  }

  lemma PieceStartsNonSpace(t: Token, g: string, r: string)
    requires Fits(t, g) && (t.Enclosed? ==> !IsSpace(t.open))
    ensures |Piece(t, g) + r| > 0 && !IsSpace((Piece(t, g) + r)[0])
  {
    match t
    case Run(cls) =>
      assert InClass(g[0], cls);
    case Enclosed(o, c) =>
  }

  lemma RenderStartsNonSpace(p: seq<Token>, gs: seq<string>, seps: seq<string>, rest: string)
    requires Decomposes(p, gs, seps, rest) && ValidPattern(p)
    ensures !IsSpace((Render(p, gs, seps) + rest)[0])
  {
    ValidPatternTail(p);
    assert Fits(p[0], gs[0]);
    if |p| == 1 {
      PieceStartsNonSpace(p[0], gs[0], rest);
    } else {
      UnconsDecomposes(p, gs, seps, rest);
      PieceStartsNonSpace(p[0], gs[0], seps[0] + (Render(p[1..], gs[1..], seps[1..]) + rest));
    }
  }

  /** One step of the scanner: a group, a separator, then the scan of the rest. */
  lemma ScanCons(p: seq<Token>, s: string, g: string, r: string, sep: string, r2: string,
                 tail: (seq<string>, seq<string>, string))
    requires |p| > 1 && TakeToken(p[0], s) == Some((g, r)) && Span(r, IsSpace) == (sep, r2)
    requires sep != [] && Scan(p[1..], r2) == Some(tail)
    ensures Scan(p, s) == Some(([g] + tail.0, [sep] + tail.1, tail.2))
  {
  }

  lemma SplitFirst<T>(xs: seq<T>)
    requires |xs| > 0
    ensures xs == [xs[0]] + xs[1..]
  {
  }

  /** A group followed by a separator is read as that group. */
  lemma TakeTokenBeforeSeparator(t: Token, g: string, sep: string, tail: string)
    requires Fits(t, g) && IsSeparator(sep)
    requires t.Enclosed? ==> !IsSpace(t.close)
    ensures TakeToken(t, Piece(t, g) + (sep + tail)) == Some((g, sep + tail))
  {
    var r := sep + tail;
    assert r[0] == sep[0];
    SpaceOutsideClasses(r[0], if t.Run? then t.cls else Digit);
    TakeTokenComplete(t, g, r);
  }

  /** Every reading of a line against the pattern is found by the scanner. */
  lemma {:induction false} ScanComplete(p: seq<Token>, gs: seq<string>, seps: seq<string>, rest: string)
    requires Decomposes(p, gs, seps, rest) && ValidPattern(p)
    ensures Scan(p, Render(p, gs, seps) + rest) == Some((gs, seps, rest))
    decreases |p|
  {
    ValidPatternTail(p);
    assert Fits(p[0], gs[0]);
    if |p| == 1 {
      TakeTokenComplete(p[0], gs[0], rest);
      assert gs == [gs[0]] && seps == [];
    } else {
      UnconsDecomposes(p, gs, seps, rest);
      var tail := Render(p[1..], gs[1..], seps[1..]) + rest;
      TakeTokenBeforeSeparator(p[0], gs[0], seps[0], tail);
      RenderStartsNonSpace(p[1..], gs[1..], seps[1..], rest);
      SpanExact(seps[0], tail, IsSpace);
      ScanComplete(p[1..], gs[1..], seps[1..], rest);
      ScanCons(p, Render(p, gs, seps) + rest, gs[0], seps[0] + tail, seps[0], tail, (gs[1..], seps[1..], rest));
      SplitFirst(gs);
      SplitFirst(seps);
    }
  }

  lemma LogPatternValid()
    ensures ValidPattern(LogPattern) && |LogPattern| == 13
  {
  }

  /** Under the first-closer reading a line matches in at most one way. */
  lemma DecompositionUnique(gs1: seq<string>, seps1: seq<string>, rest1: string,
                            gs2: seq<string>, seps2: seq<string>, rest2: string)
    requires Decomposes(LogPattern, gs1, seps1, rest1) && Decomposes(LogPattern, gs2, seps2, rest2)
    requires Render(LogPattern, gs1, seps1) + rest1 == Render(LogPattern, gs2, seps2) + rest2
    ensures gs1 == gs2 && seps1 == seps2 && rest1 == rest2
  {
    LogPatternValid();
    ScanComplete(LogPattern, gs1, seps1, rest1);
    ScanComplete(LogPattern, gs2, seps2, rest2);
  }

  // ---------------------------------------------------------------- the Log record

  /** The attributes `Log.__init__` sets. The raw request line is split into method, url and
      protocol and is not kept itself. */
  datatype Log = Log(
    ip: string,
    identd: string,
    user: string,
    date: Option<DateTime>,
    httpMethod: Option<string>,
    url: string,
    protocol: Option<string>,
    status: int,
    bytesize: int,
    referer: string,
    userAgent: string,
    forwardedFor: string,
    reqId: string,
    sessId: string,
    duration: real)

  /** What `parse_log` does with a line: a record, `None`, or a `ValueError` escaping from a field
      conversion. */
  datatype Parsed = Matched(log: Log) | NoMatch | Raised(error: PyError)

  /** The request line unpacked into method, url and protocol: exactly three whitespace-separated
      words, or else no method and protocol and the whole request as url. */
  function RequestFields(request: string): (Option<string>, string, Option<string>)
  {
    var parts := SplitWs(request);
    if |parts| == 3 then (Some(parts[0]), parts[1], Some(parts[2])) else (None, request, None)
  }

  /** `Log(**groups)`: each group converted in pattern order. `status` and `bytesize` go through
      `int()` and `duration` through `float()`, whose `ValueError` escapes; a date that
      `parseDate` refuses becomes `None`. Every other group is stored as captured. */
  function BuildLog(gs: seq<string>, parseDate: string -> Option<DateTime>): Parsed
    requires |gs| == 13
  {
    var (httpMethod, url, protocol) := RequestFields(gs[4]);
    match PyInt(gs[5])
    case None => Raised(ValueError)
    case Some(status) =>
      match PyInt(gs[6])
      case None => Raised(ValueError)
      case Some(bytesize) =>
        match DurationFloat(gs[12])
        case None => Raised(ValueError)
        case Some(duration) =>
          Matched(Log(gs[0], gs[1], gs[2], parseDate(gs[3]), httpMethod, url, protocol, status, bytesize,
                      gs[7], gs[8], gs[9], gs[10], gs[11], duration))
  }

  /** `parse_log(line)`; `parseDate` stands for `datetime.strptime(v, "%d/%b/%Y:%H:%M:%S %z")`,
      with `None` for its `ValueError`. */
  function ParseLog(line: string, parseDate: string -> Option<DateTime>): Parsed
  {
    LogPatternValid();
    match Scan(LogPattern, line)
    case None => NoMatch
    case Some((gs, _, _)) =>
      ScanSound(LogPattern, line);
      BuildLog(gs, parseDate)
  }

  // ---------------------------------------------------------------- what parse_log promises

  lemma BuildLogMatchesOrRaises(gs: seq<string>, parseDate: string -> Option<DateTime>)
    requires |gs| == 13
    ensures !BuildLog(gs, parseDate).NoMatch?
  {
  }

  lemma ParseLogNoMatchOfScan(line: string, parseDate: string -> Option<DateTime>)
    ensures ParseLog(line, parseDate).NoMatch? <==> Scan(LogPattern, line).None?
  {
    LogPatternValid();
    ScanSound(LogPattern, line);
    if Scan(LogPattern, line).Some? {
      BuildLogMatchesOrRaises(Scan(LogPattern, line).value.0, parseDate);
    }
  }

  /** `parse_log` returns `None` exactly when the line does not match the pattern at its start. */
  lemma ParseLogNoMatchIff(line: string, parseDate: string -> Option<DateTime>)
    ensures ParseLog(line, parseDate).NoMatch? <==> !MatchesLogPattern(line)
  {
    ParseLogNoMatchOfScan(line, parseDate);
    LogPatternValid();
    ScanSound(LogPattern, line);
    if MatchesLogPattern(line) {
      var gs, seps, rest :| Decomposes(LogPattern, gs, seps, rest) && line == Render(LogPattern, gs, seps) + rest;
      ScanComplete(LogPattern, gs, seps, rest);
    }
  }

  /** Only the groups decide the result: whatever follows the duration is ignored. */
  lemma ParseLogIgnoresRest(gs: seq<string>, seps: seq<string>, rest: string,
                            parseDate: string -> Option<DateTime>)
    requires Decomposes(LogPattern, gs, seps, rest)
    ensures ParseLog(Render(LogPattern, gs, seps) + rest, parseDate) == BuildLog(gs, parseDate)
  {
    LogPatternValid();
    ScanComplete(LogPattern, gs, seps, rest);
  }

  lemma ParseLogFields(gs: seq<string>, seps: seq<string>, rest: string,
                       parseDate: string -> Option<DateTime>)
    requires Decomposes(LogPattern, gs, seps, rest)
    ensures ParseLog(Render(LogPattern, gs, seps) + rest, parseDate) == BuildLog(gs, parseDate)
    ensures LogFieldsHold(gs, parseDate, BuildLog(gs, parseDate))
  {
    ParseLogIgnoresRest(gs, seps, rest, parseDate);
    assert Fits(LogPattern[0], gs[0]) && Fits(LogPattern[5], gs[5]);
    BuildLogFields(gs, parseDate);
  }

  /** A matched line yields a record whose text fields are the captured groups, whose `ip` holds
      only digits and dots, whose request is unpacked by `RequestFields` and whose `status` is
      the number its digits denote; it fails, with `ValueError`, exactly when `status` has more
      digits than `int()` accepts or `bytesize` or `duration` does not convert. */
  ghost predicate LogFieldsHold(gs: seq<string>, parseDate: string -> Option<DateTime>, parsed: Parsed)
    requires |gs| == 13
  {
    && (parsed.Raised? <==> |gs[5]| > MaxStrDigits || PyInt(gs[6]).None? || DurationFloat(gs[12]).None?)
    && (parsed.Raised? ==> parsed.error == ValueError)
    && (parsed.Matched? ==>
          var log := parsed.log;
          && log.ip == gs[0] && |log.ip| > 0
          && (forall i :: 0 <= i < |log.ip| ==> IsDigit(log.ip[i]) || log.ip[i] == '.')
          && log.identd == gs[1] && log.user == gs[2]
          && log.date == parseDate(gs[3])
          && (log.httpMethod, log.url, log.protocol) == RequestFields(gs[4])
          && AllDigits(gs[5]) && log.status == DigitsValue(gs[5])
          && Some(log.bytesize) == PyInt(gs[6])
          && log.referer == gs[7] && log.userAgent == gs[8] && log.forwardedFor == gs[9]
          && log.reqId == gs[10] && log.sessId == gs[11]
          && Some(log.duration) == DurationFloat(gs[12]) && log.duration >= 0.0)
  }

  lemma BuildLogFields(gs: seq<string>, parseDate: string -> Option<DateTime>)
    requires |gs| == 13 && Fits(Run(DigitOrDot), gs[0]) && Fits(Run(Digit), gs[5])
    ensures LogFieldsHold(gs, parseDate, BuildLog(gs, parseDate))
  {
    PyIntOfDigits(gs[5]);
  }

  /** A matched line whose duration has two or more decimal points makes `parse_log` raise
      ValueError rather than return `None`. */
  lemma ParseLogRejectsDots(gs: seq<string>, seps: seq<string>, rest: string,
                            parseDate: string -> Option<DateTime>)
    requires Decomposes(LogPattern, gs, seps, rest) && !AtMostOneDot(gs[12])
    ensures ParseLog(Render(LogPattern, gs, seps) + rest, parseDate) == Raised(ValueError)
  {
    ParseLogFields(gs, seps, rest, parseDate);
    assert Fits(LogPattern[12], gs[12]);
    DurationFloatConverts(gs[12]);
  }

  /** Whether a line is accepted never depends on its date: a date `strptime` refuses leaves
      `date` as `None` and nothing else changes. */
  lemma DateNeverRejects(line: string, pd1: string -> Option<DateTime>, pd2: string -> Option<DateTime>)
    ensures ParseLog(line, pd1).Matched? == ParseLog(line, pd2).Matched?
    ensures ParseLog(line, pd1).Matched? ==>
      ParseLog(line, pd2).log == ParseLog(line, pd1).log.(date := ParseLog(line, pd2).log.date)
  {
  }

  /** With exactly three words in the request they become method, url and protocol in order;
      with any other number the url is the whole request and method and protocol are `None`. */
  lemma RequestFieldsSplit(request: string)
    ensures var (httpMethod, url, protocol) := RequestFields(request);
      && (|SplitWs(request)| == 3 ==>
            httpMethod == Some(SplitWs(request)[0]) && url == SplitWs(request)[1] && protocol == Some(SplitWs(request)[2])
            && Concat(SplitWs(request)) == NonSpaceChars(request))
      && (|SplitWs(request)| != 3 ==> httpMethod == None && url == request && protocol == None)
  {
    SplitWsKeepsNonSpace(request);
  }

  /** A request written as `METHOD URL PROTOCOL`, words joined by single spaces, gives back
      those three words. */
  lemma RequestFieldsRoundTrip(words: seq<string>)
    requires |words| == 3
    requires forall k :: 0 <= k < 3 ==> |words[k]| > 0
    requires forall k, i :: 0 <= k < 3 && 0 <= i < |words[k]| ==> !IsSpace(words[k][i])
    ensures RequestFields(JoinSpace(words)) == (Some(words[0]), words[1], Some(words[2]))
  {
    SplitWsJoinSpace(words);
  }
}
