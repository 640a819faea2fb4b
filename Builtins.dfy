/** The Python built-ins the log-parser core calls, stated for the inputs the core gives them:
    `str.isspace`, `str.strip`, `str.split()`, `int()`, `float()`, `sum`, `max`, `min`,
    `sorted` and `statistics.median`. Floats are modelled as `real`. */
module Builtins {

  datatype Option<T> = None | Some(value: T)

  /** The exceptions the core lets escape. */
  datatype PyError = ValueError | ZeroDivisionError

  /** A `datetime` value as the fields it is built from; its calendar and timezone rules are not
      modelled. */
  datatype DateTime = DateTime(year: int, month: int, day: int, hour: int, minute: int, second: int,
                               utcOffsetSeconds: int)

  // ---------------------------------------------------------------- characters

  /** `str.isspace()`: the characters that Python's `\s` and `str.split()` treat as whitespace. */
  predicate IsSpace(c: char) {
    || ('\t' <= c <= '\r')
    || ('\U{1C}' <= c <= '\U{1F}')
    || c == ' ' || c == '\U{85}' || c == '\U{A0}' || c == '\U{1680}'
    || ('\U{2000}' <= c <= '\U{200A}')
    || c == '\U{2028}' || c == '\U{2029}' || c == '\U{202F}' || c == '\U{205F}' || c == '\U{3000}'
  }

  predicate NotSpace(c: char) { !IsSpace(c) }

  /** ASCII decimal digits. */
  predicate IsDigit(c: char) { '0' <= c <= '9' }

  predicate AllDigits(s: string) {
    forall i :: 0 <= i < |s| ==> IsDigit(s[i])
  }

  function DigitValue(c: char): (d: nat)
    requires IsDigit(c)
    ensures d < 10
  {
    (c as int) - ('0' as int)
  }

  function DigitChar(d: nat): (c: char)
    requires d < 10
    ensures IsDigit(c) && DigitValue(c) == d
  {
    ('0' as int + d) as char
  }

  /** The number a string of decimal digits denotes (most significant first). */
  function DigitsValue(s: string): nat
    requires AllDigits(s)
  {
    if s == [] then 0 else 10 * DigitsValue(s[..|s| - 1]) + DigitValue(s[|s| - 1])
  }

  function Pow10(k: nat): (p: nat)
    ensures p >= 1
  {
    if k == 0 then 1 else 10 * Pow10(k - 1)
  }

  /** `n` written with exactly `width` digits, zero-padded on the left (the `%04d`, `%02d` shapes). */
  function PadDigits(n: nat, width: nat): (s: string)
    requires n < Pow10(width)
    ensures |s| == width && AllDigits(s)
  {
    if width == 0 then "" else PadDigits(n / 10, width - 1) + [DigitChar(n % 10)]
  }

  lemma {:induction false} PadDigitsValue(n: nat, width: nat)
    requires n < Pow10(width)
    ensures DigitsValue(PadDigits(n, width)) == n
  {
    if width > 0 {
      var s := PadDigits(n, width);
      assert s[..|s| - 1] == PadDigits(n / 10, width - 1);
      PadDigitsValue(n / 10, width - 1);
    }
  }

  /** Zero-padding gives back a fixed-width digit string from the number it denotes. */
  lemma {:induction false} PadDigitsOfDigits(s: string)
    requires AllDigits(s)
    ensures DigitsValue(s) < Pow10(|s|)
    ensures PadDigits(DigitsValue(s), |s|) == s
    decreases |s|
  {
    if s != [] {
      var init, c := s[..|s| - 1], s[|s| - 1];
      assert AllDigits(init);
      PadDigitsOfDigits(init);
      var n := DigitsValue(s);
      assert n / 10 == DigitsValue(init) && n % 10 == DigitValue(c);
      assert DigitChar(DigitValue(c)) == c;
      assert s == init + [c];
    }
  }

  // ---------------------------------------------------------------- strip and split

  /** The longest prefix of `s` whose characters all satisfy `p`, and what follows it. */
  function Span(s: string, p: char -> bool): (r: (string, string))
    ensures r.0 + r.1 == s
    ensures forall i :: 0 <= i < |r.0| ==> p(r.0[i])
    ensures r.1 == [] || !p(r.1[0])
  {
    if s != [] && p(s[0]) then
      var (a, b) := Span(s[1..], p);
      assert [s[0]] + (a + b) == s;
      ([s[0]] + a, b)
    else ([], s)
  }

  /** `Span` is determined by its contract: a prefix of `p`-characters that cannot be extended. */
  lemma {:induction false} SpanExact(g: string, rest: string, p: char -> bool)
    requires forall i :: 0 <= i < |g| ==> p(g[i])
    requires rest == [] || !p(rest[0])
    ensures Span(g + rest, p) == (g, rest)
  {
    if g != [] {
      assert (g + rest)[0] == g[0];
      assert (g + rest)[1..] == g[1..] + rest;
      SpanExact(g[1..], rest, p);
      assert g == [g[0]] + g[1..];
    } else {
      assert g + rest == rest;
    }
  }

  /** Drops the trailing characters that satisfy `p`. */
  function DropLast(s: string, p: char -> bool): (r: string)
    ensures |r| <= |s| && r == s[..|r|]
    ensures r == [] || !p(r[|r| - 1])
    ensures forall i :: |r| <= i < |s| ==> p(s[i])
  {
    if s != [] && p(s[|s| - 1]) then DropLast(s[..|s| - 1], p) else s
  }

  /** `str.strip()`: leading and trailing whitespace removed. */
  function Strip(s: string): (r: string)
  {
    DropLast(Span(s, IsSpace).1, IsSpace)
  }

  lemma StripNoSpace(s: string)
    requires forall i :: 0 <= i < |s| ==> !IsSpace(s[i])
    ensures Strip(s) == s
  {
    SpanExact([], s, IsSpace);
    assert [] + s == s;
  }

  /** `str.split()` with no argument: the maximal runs of non-whitespace characters, in order. */
  function SplitWs(s: string): (ws: seq<string>)
    ensures forall k :: 0 <= k < |ws| ==> |ws[k]| > 0
    ensures forall k, i :: 0 <= k < |ws| && 0 <= i < |ws[k]| ==> !IsSpace(ws[k][i])
    decreases |s|
  {
    var t := Span(s, IsSpace).1;
    if t == [] then []
    else
      var (w, r) := Span(t, NotSpace);
      [w] + SplitWs(r)
  }

  /** The characters of `s` that are not whitespace, in order. */
  function NonSpaceChars(s: string): string
  {
    if s == [] then [] else (if IsSpace(s[0]) then [] else [s[0]]) + NonSpaceChars(s[1..])
  }

  function Concat(ws: seq<string>): string
  {
    if ws == [] then [] else ws[0] + Concat(ws[1..])
  }

  /** Joins words with single spaces: `" ".join(ws)`. */
  function JoinSpace(ws: seq<string>): string
  {
    if ws == [] then [] else if |ws| == 1 then ws[0] else ws[0] + " " + JoinSpace(ws[1..])
  }

  lemma {:induction false} NonSpaceCharsAppend(a: string, b: string)
    ensures NonSpaceChars(a + b) == NonSpaceChars(a) + NonSpaceChars(b)
  {
    if a == [] {
      assert a + b == b;
    } else {
      assert (a + b)[1..] == a[1..] + b;
      NonSpaceCharsAppend(a[1..], b);
    }
  }

  lemma {:induction false} NonSpaceCharsOf(s: string, spaces: bool)
    requires forall i :: 0 <= i < |s| ==> IsSpace(s[i]) == spaces
    ensures NonSpaceChars(s) == if spaces then [] else s
  {
    if s != [] {
      NonSpaceCharsOf(s[1..], spaces);
    }
  }

  /** `str.split()` loses nothing but whitespace: its words, concatenated, are the non-space characters. */
  lemma {:induction false} SplitWsKeepsNonSpace(s: string)
    ensures Concat(SplitWs(s)) == NonSpaceChars(s)
    decreases |s|
  {
    var (lead, t) := Span(s, IsSpace);
    NonSpaceCharsOf(lead, true);
    NonSpaceCharsAppend(lead, t);
    if t != [] {
      var (w, r) := Span(t, NotSpace);
      NonSpaceCharsOf(w, false);
      NonSpaceCharsAppend(w, r);
      SplitWsKeepsNonSpace(r);
      assert SplitWs(s) == [w] + SplitWs(r);
      assert ([w] + SplitWs(r))[1..] == SplitWs(r);
    }
  }

  /** `str.split()` undoes `" ".join` for words that are non-empty and hold no whitespace. */
  lemma {:induction false} SplitWsJoinSpace(ws: seq<string>)
    requires forall k :: 0 <= k < |ws| ==> |ws[k]| > 0
    requires forall k, i :: 0 <= k < |ws| && 0 <= i < |ws[k]| ==> !IsSpace(ws[k][i])
    ensures SplitWs(JoinSpace(ws)) == ws
    decreases |ws|
  {
    if |ws| == 1 {
      SplitWsWord(ws[0], []);
      assert ws[0] + [] == ws[0];
    } else if |ws| > 1 {
      var w, r := ws[0], JoinSpace(ws[1..]);
      assert SplitWs(r) == ws[1..] by { SplitWsJoinSpace(ws[1..]); }
      assert r == [] || !IsSpace(r[0]) by { JoinSpaceStart(ws[1..]); }
      assert JoinSpace(ws) == w + (" " + r);
      assert SplitWs(w + (" " + r)) == [w] + SplitWs(" " + r) by { SplitWsWord(w, " " + r); }
      assert SplitWs(" " + r) == SplitWs(r) by { SplitWsSkipSpace(r); }
    }
  }

  /** A word followed by whitespace or nothing is the first word. */
  lemma SplitWsWord(w: string, r: string)
    requires |w| > 0 && forall i :: 0 <= i < |w| ==> !IsSpace(w[i])
    requires r == [] || IsSpace(r[0])
    ensures SplitWs(w + r) == [w] + SplitWs(r)
  {
    assert Span(w + r, IsSpace) == ([], w + r) by {
      SpanExact([], w + r, IsSpace);
      assert [] + (w + r) == w + r;
    }
    SpanExact(w, r, NotSpace);
  }

  /** A single space before a word is skipped. */
  lemma SplitWsSkipSpace(r: string)
    requires r == [] || !IsSpace(r[0])
    ensures SplitWs(" " + r) == SplitWs(r)
  {
    assert Span(" " + r, IsSpace) == (" ", r) by {
      SpanExact(" ", r, IsSpace);
    }
    assert Span(r, IsSpace) == ([], r) by {
      SpanExact([], r, IsSpace);
      assert [] + r == r;
    }
  }

  lemma JoinSpaceStart(ws: seq<string>)
    requires |ws| > 0 && |ws[0]| > 0
    ensures |JoinSpace(ws)| > 0 && JoinSpace(ws)[0] == ws[0][0]
  {
  }

  // ---------------------------------------------------------------- int() and float()

  /** Digits with single underscores between them: the digit part `int()` accepts in base 10. */
  predicate IsDigitGroups(s: string) {
    && |s| > 0 && IsDigit(s[0]) && IsDigit(s[|s| - 1])
    && (forall i :: 0 <= i < |s| ==> IsDigit(s[i]) || s[i] == '_')
    && (forall i :: 0 <= i < |s| - 1 ==> !(s[i] == '_' && s[i + 1] == '_'))
  }

  function RemoveUnderscores(s: string): (r: string)
    requires forall i :: 0 <= i < |s| ==> IsDigit(s[i]) || s[i] == '_'
    ensures AllDigits(r)
  {
    if s == [] then [] else (if s[0] == '_' then [] else [s[0]]) + RemoveUnderscores(s[1..])
  }

  /** The default of `sys.get_int_max_str_digits()` (Python 3.10.7 and later): `int()` refuses a
      decimal string with more digits than this. */
  const MaxStrDigits: nat := 4300

  /** Digit groups of at most `MaxStrDigits` digits, underscores not counted, and their value. */
  function UnsignedValue(s: string): Option<nat>
  {
    if IsDigitGroups(s) && |RemoveUnderscores(s)| <= MaxStrDigits then Some(DigitsValue(RemoveUnderscores(s)))
    else None
  }

  /** `int(s)` in base 10: surrounding whitespace stripped, an optional sign, then digit groups of
      at most `MaxStrDigits` digits; `None` stands for the `ValueError` it raises on anything
      else. */
  function PyInt(s: string): Option<int>
  {
    IntLiteral(Strip(s))
  }

  function IntLiteral(t: string): Option<int>
  {
    if |t| > 0 && (t[0] == '+' || t[0] == '-') then
      match UnsignedValue(t[1..])
      case None => None
      case Some(n) => Some(if t[0] == '-' then -(n as int) else n as int)
    else
      match UnsignedValue(t)
      case None => None
      case Some(n) => Some(n)
  }

  lemma DigitsNotSpace(s: string)
    requires AllDigits(s)
    ensures forall i :: 0 <= i < |s| ==> !IsSpace(s[i])
  {
  }

  lemma RemoveUnderscoresOfDigits(s: string)
    requires AllDigits(s)
    ensures RemoveUnderscores(s) == s
  {
    if s != [] {
      RemoveUnderscoresOfDigits(s[1..]);
    }
  }

  lemma UnsignedValueOfDigits(s: string)
    requires |s| > 0 && AllDigits(s)
    ensures UnsignedValue(s) == if |s| <= MaxStrDigits then Some(DigitsValue(s)) else None
  {
    assert IsDigitGroups(s);
    RemoveUnderscoresOfDigits(s);
  }

  lemma IntLiteralUnsigned(t: string, n: nat)
    requires |t| > 0 && t[0] != '+' && t[0] != '-' && UnsignedValue(t) == Some(n)
    ensures IntLiteral(t) == Some(n as int)
  {
  }

  /** A non-empty run of digits converts, to the number it denotes, exactly when it has at most
      `MaxStrDigits` digits. */
  lemma PyIntOfDigits(s: string)
    requires |s| > 0 && AllDigits(s)
    ensures PyInt(s) == if |s| <= MaxStrDigits then Some(DigitsValue(s) as int) else None
  {
    assert Strip(s) == s by {
      DigitsNotSpace(s);
      StripNoSpace(s);
    }
    assert s[0] != '+' && s[0] != '-' by { assert IsDigit(s[0]); }
    if |s| <= MaxStrDigits {
      assert IntLiteral(s) == Some(DigitsValue(s) as int) by {
        UnsignedValueOfDigits(s);
        IntLiteralUnsigned(s, DigitsValue(s));
      }
    } else {
      assert IntLiteral(s) == None by {
        UnsignedValueOfDigits(s);
      }
    }
  }

  /** The placeholder `-` that logs write for an unknown size is not a number. */
  lemma PyIntRejectsDash()
    ensures PyInt("-") == None
  {
    StripNoSpace("-");
    assert "-"[1..] == "";
  }

  function IndexOf(s: string, c: char): (k: nat)
    ensures k <= |s|
    ensures forall i :: 0 <= i < k ==> s[i] != c
    ensures k < |s| ==> s[k] == c
  {
    if s == [] then 0 else if s[0] == c then 0 else 1 + IndexOf(s[1..], c)
  }

  /** `float(s)` on what the duration group `[\d\.]+` can capture, runs of digits and dots: it
      converts digits with at most one decimal point and at least one digit, and `None` stands
      for the `ValueError` it raises otherwise (a lone dot, or two dots as in `1.2.3`). Signs,
      exponents, underscores and names such as `inf` never reach it and are refused here,
      whereas `float()` accepts them. */
  function DurationFloat(s: string): (r: Option<real>)
    ensures r.Some? ==> r.value >= 0.0
  {
    DecimalLiteral(Strip(s))
  }

  function DecimalLiteral(t: string): (r: Option<real>)
    ensures r.Some? ==> r.value >= 0.0
  {
    var k := IndexOf(t, '.');
    var whole := t[..k];
    var frac := if k < |t| then t[k + 1..] else "";
    if AllDigits(whole) && AllDigits(frac) && |whole| + |frac| > 0 then
      Some(DecimalValue(whole, frac))
    else None
  }

  /** The value of the decimal `whole.frac`. */
  function DecimalValue(whole: string, frac: string): (r: real)
    requires AllDigits(whole) && AllDigits(frac)
    ensures r >= 0.0
  {
    DigitsValue(whole) as real + DigitsValue(frac) as real / Pow10(|frac|) as real
  }

  /** Digits around a string without whitespace give a string without whitespace. */
  lemma NoSpaceAround(a: string, m: string, b: string)
    requires AllDigits(a) && AllDigits(b)
    requires forall i :: 0 <= i < |m| ==> !IsSpace(m[i])
    ensures forall k :: 0 <= k < |a + m + b| ==> !IsSpace((a + m + b)[k])
  {
    var s := a + m + b;
    forall k | 0 <= k < |s| ensures !IsSpace(s[k]) {
      if k < |a| {
        assert s[k] == a[k];
      } else if k < |a| + |m| {
        assert s[k] == m[k - |a|];
      } else {
        assert s[k] == b[k - |a| - |m|];
      }
    }
  }

  /** `float("w.f")` is `w + f / 10^|f|`, the decimal read back exactly; `w` or `f` may be empty
      (`.5`, `5.`), not both. */
  lemma DurationFloatOfParts(w: string, f: string)
    requires AllDigits(w) && AllDigits(f) && |w| + |f| > 0
    ensures DurationFloat(w + "." + f) == Some(DecimalValue(w, f))
  {
    NoSpaceAround(w, ".", f);
    StripNoSpace(w + "." + f);
    DecimalLiteralOf(w, f);
  }

  lemma DecimalLiteralOf(w: string, f: string)
    requires AllDigits(w) && AllDigits(f) && |w| + |f| > 0
    ensures DecimalLiteral(w + "." + f) == Some(DecimalValue(w, f))
  {
    var s := w + "." + f;
    var k := IndexOf(s, '.');
    assert s[|w|] == '.';
    assert forall i :: 0 <= i < |w| ==> s[i] == w[i];
    assert k == |w|;
    assert s[..k] == w;
    assert s[k + 1..] == f;
  }

  /** `float("w")` without a decimal point is the integer the digits denote. */
  lemma DurationFloatOfDigits(w: string)
    requires |w| > 0 && AllDigits(w)
    ensures DurationFloat(w) == Some(DigitsValue(w) as real)
  {
    assert DurationFloat(w) == DecimalLiteral(w) by {
      DigitsNotSpace(w);
      StripNoSpace(w);
    }
    DecimalLiteralNoDot(w);
    DecimalValueNoFraction(w);
  }

  lemma DecimalLiteralNoDot(w: string)
    requires |w| > 0 && AllDigits(w)
    ensures DecimalLiteral(w) == Some(DecimalValue(w, ""))
  {
    NoDot(w);
    assert w[..|w|] == w;
  }

  lemma NoDot(w: string)
    requires AllDigits(w)
    ensures IndexOf(w, '.') == |w|
  {
  }

  lemma DecimalValueNoFraction(w: string)
    requires AllDigits(w)
    ensures DecimalValue(w, "") == DigitsValue(w) as real
  {
    assert DigitsValue("") == 0 && Pow10(0) == 1;
  }

  /** The strings the duration group `[\d\.]+` can capture, the empty one aside. */
  predicate DigitsAndDots(s: string) {
    forall i :: 0 <= i < |s| ==> IsDigit(s[i]) || s[i] == '.'
  }

  predicate AtMostOneDot(s: string) {
    forall i, j :: 0 <= i < j < |s| ==> s[i] != '.' || s[j] != '.'
  }

  predicate HasDigit(s: string) {
    exists i :: 0 <= i < |s| && IsDigit(s[i])
  }

  /** A run of digits and dots converts exactly when it has at most one decimal point and at
      least one digit: `1.2.3` and `.` are refused, `12`, `.5` and `5.` are not. */
  lemma DurationFloatConverts(s: string)
    requires DigitsAndDots(s)
    ensures DurationFloat(s).Some? <==> AtMostOneDot(s) && HasDigit(s)
  {
    assert DurationFloat(s) == DecimalLiteral(s) by {
      StripNoSpace(s);
    }
    if DecimalLiteral(s).Some? {
      DecimalLiteralShape(s);
    } else if AtMostOneDot(s) && HasDigit(s) {
      DecimalLiteralOfShape(s);
    }
  }

  /** Before the first dot there are only digits. */
  lemma WholeDigits(s: string)
    requires DigitsAndDots(s)
    ensures AllDigits(s[..IndexOf(s, '.')])
  {
    var k := IndexOf(s, '.');
    forall m | 0 <= m < k ensures IsDigit(s[..k][m]) {
      assert s[..k][m] == s[m];
    }
  }

  lemma DecimalLiteralShape(s: string)
    requires DigitsAndDots(s) && DecimalLiteral(s).Some?
    ensures AtMostOneDot(s) && HasDigit(s)
  {
    var k := IndexOf(s, '.');
    var whole := s[..k];
    var frac := if k < |s| then s[k + 1..] else "";
    assert AllDigits(frac) && |whole| + |frac| > 0;
    forall i, j | 0 <= i < j < |s| && s[i] == '.' ensures s[j] != '.' {
      assert frac[j - k - 1] == s[j];
    }
    if |whole| > 0 {
      assert whole[0] == s[0];
    } else {
      assert frac[0] == s[k + 1];
    }
  }

  lemma DecimalLiteralOfShape(s: string)
    requires DigitsAndDots(s) && AtMostOneDot(s) && HasDigit(s)
    ensures DecimalLiteral(s).Some?
  {
    var k := IndexOf(s, '.');
    var whole := s[..k];
    var frac := if k < |s| then s[k + 1..] else "";
    WholeDigits(s);
    assert AllDigits(frac) by {
      forall m | 0 <= m < |frac| ensures IsDigit(frac[m]) {
        assert frac[m] == s[k + 1 + m];
      }
    }
    var d :| 0 <= d < |s| && IsDigit(s[d]);
    assert |whole| + |frac| > 0 by {
      if d > k {
        assert |frac| > 0;
      }
    }
  }

  // ---------------------------------------------------------------- sum, max, min, sorted, median

  /** `sum(s)`: added left to right, starting from 0. */
  function Sum(s: seq<real>): real
  {
    if s == [] then 0.0 else Sum(s[..|s| - 1]) + s[|s| - 1]
  }

  lemma SumAppend(s: seq<real>, x: real)
    ensures Sum(s + [x]) == Sum(s) + x
  {
    assert (s + [x])[..|s|] == s;
  }

  /** A sum of `|s|` values within `[lo, hi]` lies within `[|s| * lo, |s| * hi]`. */
  lemma {:induction false} SumWithin(s: seq<real>, lo: real, hi: real)
    requires forall i :: 0 <= i < |s| ==> lo <= s[i] <= hi
    ensures |s| as real * lo <= Sum(s) <= |s| as real * hi
    decreases |s|
  {
    if s != [] {
      var init := s[..|s| - 1];
      assert forall i :: 0 <= i < |init| ==> init[i] == s[i];
      SumWithin(init, lo, hi);
      assert |s| as real * lo == |init| as real * lo + lo;
      assert |s| as real * hi == |init| as real * hi + hi;
    }
  }

  /** `max(s)` on a non-empty list. */
  function Max(s: seq<real>): (m: real)
    requires |s| > 0
    ensures m in s
    ensures forall i :: 0 <= i < |s| ==> s[i] <= m
  {
    if |s| == 1 then s[0]
    else
      var m := Max(s[..|s| - 1]);
      assert forall i :: 0 <= i < |s| - 1 ==> s[..|s| - 1][i] == s[i];
      if s[|s| - 1] > m then s[|s| - 1] else m
  }

  /** `min(s)` on a non-empty list. */
  function Min(s: seq<real>): (m: real)
    requires |s| > 0
    ensures m in s
    ensures forall i :: 0 <= i < |s| ==> m <= s[i]
  {
    if |s| == 1 then s[0]
    else
      var m := Min(s[..|s| - 1]);
      assert forall i :: 0 <= i < |s| - 1 ==> s[..|s| - 1][i] == s[i];
      if s[|s| - 1] < m then s[|s| - 1] else m
  }

  /** Each value is at most the next one. */
  predicate Ascending(s: seq<real>) {
    forall i :: 0 <= i < |s| - 1 ==> s[i] <= s[i + 1]
  }

  function InsertAsc(x: real, s: seq<real>): (r: seq<real>)
    requires Ascending(s)
    ensures Ascending(r)
    ensures multiset(r) == multiset(s) + multiset{x}
    ensures |r| == |s| + 1 && (r[0] == x || (s != [] && r[0] == s[0]))
  {
    if s == [] || x <= s[0] then [x] + s
    else
      var t := InsertAsc(x, s[1..]);
      assert s == [s[0]] + s[1..];
      [s[0]] + t
  }

  /** `sorted(s)`: the same values, ascending. */
  function SortAsc(s: seq<real>): (r: seq<real>)
    ensures Ascending(r)
    ensures multiset(r) == multiset(s)
  {
    if s == [] then []
    else
      assert s == [s[0]] + s[1..];
      InsertAsc(s[0], SortAsc(s[1..]))
  }

  /** `statistics.median(s)`: the middle of the sorted values, or the mean of the two middle
      ones when there is an even number of them. */
  function Median(s: seq<real>): real
    requires |s| > 0
  {
    var t := SortAsc(s);
    assert |t| == |multiset(t)| == |multiset(s)| == |s|;
    var n := |t|;
    if n % 2 == 1 then t[n / 2] else (t[n / 2 - 1] + t[n / 2]) / 2.0
  }

  /** `part / whole * 100`. */
  function Percent(part: real, whole: real): real
    requires whole != 0.0
  {
    part / whole * 100.0
  }

  /** `sum(s) / len(s)` on a non-empty list. */
  function Mean(s: seq<real>): real
    requires |s| > 0
  {
    Sum(s) / |s| as real
  }

  /** The mean lies between the smallest and the largest value. */
  lemma MeanWithin(s: seq<real>)
    requires |s| > 0
    ensures Min(s) <= Mean(s) <= Max(s)
  {
    MeanBetween(s, Min(s), Max(s));
  }

  lemma MeanBetween(s: seq<real>, lo: real, hi: real)
    requires |s| > 0
    requires forall i :: 0 <= i < |s| ==> lo <= s[i] <= hi
    ensures lo <= Sum(s) / |s| as real <= hi
  {
    SumWithin(s, lo, hi);
    DivideWithin(Sum(s), |s| as real, lo, hi);
  }

  lemma DivideWithin(x: real, n: real, lo: real, hi: real)
    requires n > 0.0 && n * lo <= x <= n * hi
    ensures lo <= x / n <= hi
  {
    var q := x / n;
    assert q * n == x;
  }

  /** Each value of the sorted list is one of the values of the list. */
  lemma SortAscBetween(s: seq<real>, k: int, lo: real, hi: real)
    requires forall i :: 0 <= i < |s| ==> lo <= s[i] <= hi
    requires 0 <= k < |SortAsc(s)|
    ensures lo <= SortAsc(s)[k] <= hi
  {
    var t := SortAsc(s);
    assert t[k] in multiset(t);
    assert t[k] in multiset(s);
    var i :| 0 <= i < |s| && s[i] == t[k];
  }

  /** The median is one of the values, or the mean of two of them, so it lies between the
      smallest and the largest. */
  lemma MedianWithin(s: seq<real>)
    requires |s| > 0
    ensures Min(s) <= Median(s) <= Max(s)
  {
    MedianBetween(s, Min(s), Max(s));
  }

  lemma MedianBetween(s: seq<real>, lo: real, hi: real)
    requires |s| > 0
    requires forall i :: 0 <= i < |s| ==> lo <= s[i] <= hi
    ensures lo <= Median(s) <= hi
  {
    var n := |s|;
    SortAscLength(s);
    SortAscBetween(s, n / 2, lo, hi);
    if n % 2 == 0 {
      SortAscBetween(s, n / 2 - 1, lo, hi);
      MidpointBetween(SortAsc(s)[n / 2 - 1], SortAsc(s)[n / 2], lo, hi);
    }
  }

  lemma SortAscLength(s: seq<real>)
    ensures |SortAsc(s)| == |s|
  {
    var t := SortAsc(s);
    assert |t| == |multiset(t)| == |multiset(s)| == |s|;
  }

  lemma MidpointBetween(x: real, y: real, lo: real, hi: real)
    requires lo <= x <= hi && lo <= y <= hi
    ensures lo <= (x + y) / 2.0 <= hi
  {
  }

  // ---------------------------------------------------------------- sorted(xs, key=..., reverse=True)

  /** Each element's key is at least the next one's. */
  predicate NonIncreasing<T>(xs: seq<T>, key: T -> real) {
    forall i :: 0 <= i < |xs| - 1 ==> key(xs[i]) >= key(xs[i + 1])
  }

  function InsertDesc<T(==)>(x: T, xs: seq<T>, key: T -> real): (r: seq<T>)
    requires NonIncreasing(xs, key)
    ensures NonIncreasing(r, key)
    ensures multiset(r) == multiset(xs) + multiset{x}
    ensures |r| == |xs| + 1 && (r[0] == x || (xs != [] && r[0] == xs[0]))
  {
    if xs == [] || key(xs[0]) <= key(x) then [x] + xs
    else
      var t := InsertDesc(x, xs[1..], key);
      assert xs == [xs[0]] + xs[1..];
      [xs[0]] + t
  }

  /** `sorted(xs, key=key, reverse=True)`: a permutation of `xs` in non-increasing key order.
      An element is inserted before the equal keys that followed it, so ties keep their order. */
  function SortDesc<T(==)>(xs: seq<T>, key: T -> real): (r: seq<T>)
    ensures NonIncreasing(r, key)
    ensures multiset(r) == multiset(xs)
  {
    if xs == [] then []
    else
      assert xs == [xs[0]] + xs[1..];
      InsertDesc(xs[0], SortDesc(xs[1..], key), key)
  }
}
