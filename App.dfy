/** `App` (src/app.py): picks the newest access log in the log directory, aggregates its records
    per URL, computes the statistics and names and orders the report.

    The directory listing is a sequence of entries, the chosen file's lines are given by a
    function of its name, and the log-line date parser is a parameter (see `ParseUtils`). The
    report is the value `Written(dir, name, rows)`: the template and the JSON encoding are not
    modelled. */
module App {
  import opened Builtins
  import opened ParseUtils
  import opened Utils
  import opened UrlStats

  // ---------------------------------------------------------------- candidate file names

  /** An entry of `dir_log.iterdir()`: its name and whether `is_file()` holds. */
  datatype DirEntry = DirEntry(name: string, isFile: bool)

  const LogPrefix: string := "nginx-access-ui.log-"

  /** A name of the shape `^nginx-access-ui\.log-(\d{8})(?:\.gz)?$`. `$` also matches just
      before a final newline, so that newline may follow. */
  function LogName(ds: string, gz: bool, nl: bool): string {
    LogPrefix + ds + (if gz then ".gz" else "") + (if nl then "\n" else "")
  }

  /** `re.search(pattern, name)`: the eight digits of group 1, or `None` when there is no match. */
  function LogNameDigits(name: string): (r: Option<string>)
    ensures r.Some? ==> |r.value| == 8 && AllDigits(r.value)
  {
    var n := if |name| > 0 && name[|name| - 1] == '\n' then name[..|name| - 1] else name;
    var core := if |n| >= 3 && n[|n| - 3..] == ".gz" then n[..|n| - 3] else n;
    if |core| == |LogPrefix| + 8 && core[..|LogPrefix|] == LogPrefix && AllDigits(core[|LogPrefix|..])
    then Some(core[|LogPrefix|..])
    else None
  }

  /** A name matches exactly when it is the prefix, eight ASCII digits, an optional `.gz` and an
      optional final newline, and the group is those digits. */
  lemma LogNameDigitsIff(name: string, ds: string)
    ensures LogNameDigits(name) == Some(ds) <==>
      |ds| == 8 && AllDigits(ds) && exists gz: bool, nl: bool :: name == LogName(ds, gz, nl)
  {
    if LogNameDigits(name) == Some(ds) {
      var nl := |name| > 0 && name[|name| - 1] == '\n';
      var n := if nl then name[..|name| - 1] else name;
      var gz := |n| >= 3 && n[|n| - 3..] == ".gz";
      var core := if gz then n[..|n| - 3] else n;
      assert core == LogPrefix + ds by {
        assert core == core[..|LogPrefix|] + core[|LogPrefix|..];
      }
      assert n == core + (if gz then ".gz" else "");
      assert name == n + (if nl then "\n" else "");
      assert name == LogName(ds, gz, nl);
    }
    if |ds| == 8 && AllDigits(ds) && exists gz: bool, nl: bool :: name == LogName(ds, gz, nl) {
      var gz: bool, nl: bool :| name == LogName(ds, gz, nl);
      LogNameOf(ds, gz, nl);
    }
  }

  lemma LogNameOf(ds: string, gz: bool, nl: bool)
    requires |ds| == 8 && AllDigits(ds)
    ensures LogNameDigits(LogName(ds, gz, nl)) == Some(ds)
  {
    var core := LogPrefix + ds;
    var n := core + (if gz then ".gz" else "");
    var name := n + (if nl then "\n" else "");
    assert LogName(ds, gz, nl) == name;
    assert IsDigit(ds[7]);
    if nl {
      assert name[..|name| - 1] == n;
    } else {
      assert name[|name| - 1] != '\n';
    }
    if gz {
      assert n[|n| - 3..] == ".gz" && n[..|n| - 3] == core;
    } else {
      assert n[|n| - 1] == ds[7];
      assert n[|n| - 3..] != ".gz";
    }
    var n' := if |name| > 0 && name[|name| - 1] == '\n' then name[..|name| - 1] else name;
    assert n' == n;
    var core' := if |n| >= 3 && n[|n| - 3..] == ".gz" then n[..|n| - 3] else n;
    assert core' == core;
    assert |core| == |LogPrefix| + 8;
    assert core[..|LogPrefix|] == LogPrefix && core[|LogPrefix|..] == ds;
  }

  // ---------------------------------------------------------------- dates of the log files

  /** The date `datetime.strptime(ds, "%Y%m%d")` returns (at midnight). */
  datatype Ymd = Ymd(year: int, month: int, day: int)

  predicate IsLeap(year: int) {
    year % 4 == 0 && (year % 100 != 0 || year % 400 == 0)
  }

  function DaysInMonth(year: int, month: int): int
    requires 1 <= month <= 12
  {
    if month == 2 then (if IsLeap(year) then 29 else 28)
    else if month == 4 || month == 6 || month == 9 || month == 11 then 30
    else 31
  }

  /** A date `datetime` accepts: years 1 to 9999 of the proleptic Gregorian calendar. */
  predicate ValidDate(d: Ymd) {
    1 <= d.year <= 9999 && 1 <= d.month <= 12 && 1 <= d.day <= DaysInMonth(d.year, d.month)
  }

  /** `datetime.strptime(ds, "%Y%m%d")` on eight ASCII digits: `%Y` takes four digits, so `%m` and
      `%d` take two each; `None` stands for the ValueError raised for a month outside 01..12, a
      day outside the month or year 0. */
  function ParseYmd(ds: string): (r: Option<Ymd>)
    requires |ds| == 8 && AllDigits(ds)
    ensures r.Some? ==> ValidDate(r.value)
  {
    var d := Ymd(DigitsValue(ds[..4]), DigitsValue(ds[4..6]), DigitsValue(ds[6..]));
    if ValidDate(d) then Some(d) else None
  }

  /** `date > last_log_date`: datetimes compare by year, then month, then day. */
  predicate Later(a: Ymd, b: Ymd) {
    a.year > b.year || (a.year == b.year && (a.month > b.month || (a.month == b.month && a.day > b.day)))
  }

  /** `Later` is a strict total order. */
  lemma LaterOrder(a: Ymd, b: Ymd, c: Ymd)
    ensures !Later(a, a)
    ensures Later(a, b) ==> !Later(b, a)
    ensures Later(a, b) && Later(b, c) ==> Later(a, c)
    ensures a != b ==> Later(a, b) || Later(b, a)
  {
  }

  // ---------------------------------------------------------------- get_last_log_path

  /** The outcome of `get_last_log_path`: `(None, None)`, the path and date of the newest
      candidate, or the ValueError of a candidate whose digits are not a date. */
  datatype Selection = NotFound | Found(entry: DirEntry, date: Ymd) | Invalid

  /** A regular file whose name matches the pattern. */
  predicate Candidate(e: DirEntry) {
    e.isFile && LogNameDigits(e.name).Some?
  }

  function EntryDate(e: DirEntry): Option<Ymd>
    requires Candidate(e)
  {
    ParseYmd(LogNameDigits(e.name).value)
  }

  /** One iteration of the loop over the directory. */
  function Step(sel: Selection, e: DirEntry): (r: Selection)
    ensures (sel.Found? ==> ValidDate(sel.date)) ==> (r.Found? ==> ValidDate(r.date))
  {
    if sel.Invalid? || !Candidate(e) then sel
    else match EntryDate(e)
      case None => Invalid
      case Some(d) => if sel.NotFound? || Later(d, sel.date) then Found(e, d) else sel
  }

  /** The loop over the whole listing, in iteration order. */
  function Select(listing: seq<DirEntry>): (r: Selection)
    ensures r.Found? ==> ValidDate(r.date)
  {
    if listing == [] then NotFound
    else Step(Select(listing[..|listing| - 1]), listing[|listing| - 1])
  }

  /** `(None, None)` exactly when no entry is a candidate. */
  lemma {:induction false} SelectNotFound(listing: seq<DirEntry>)
    ensures Select(listing).NotFound? <==> forall i :: 0 <= i < |listing| ==> !Candidate(listing[i])
  {
    if listing != [] {
      SelectNotFound(listing[..|listing| - 1]);
    }
  }

  /** A ValueError exactly when some candidate's digits are not a date. */
  lemma {:induction false} SelectInvalid(listing: seq<DirEntry>)
    ensures Select(listing).Invalid? <==>
      exists i :: 0 <= i < |listing| && Candidate(listing[i]) && EntryDate(listing[i]).None?
  {
    if listing != [] {
      var n := |listing| - 1;
      SelectInvalid(listing[..n]);
      assert forall i :: 0 <= i < n ==> listing[..n][i] == listing[i];
    }
  }

  /** Entry `i` is a candidate with date `d`, every earlier candidate has an earlier date and no
      later candidate has a later one. */
  ghost predicate NewestAt(listing: seq<DirEntry>, i: int, d: Ymd) {
    && 0 <= i < |listing| && Candidate(listing[i]) && EntryDate(listing[i]) == Some(d)
    && (forall j :: 0 <= j < i && Candidate(listing[j]) ==>
          EntryDate(listing[j]).Some? && Later(d, EntryDate(listing[j]).value))
    && (forall j :: i < j < |listing| && Candidate(listing[j]) ==>
          EntryDate(listing[j]).Some? && !Later(EntryDate(listing[j]).value, d))
  }

  /** The selected file carries the greatest date of all candidates, and of the files carrying
      that date it is the first one iterated, since only a strictly later date replaces it. */
  lemma {:induction false} SelectFound(listing: seq<DirEntry>)
    ensures Select(listing).Found? ==>
      exists i :: NewestAt(listing, i, Select(listing).date) && listing[i] == Select(listing).entry
  {
    if listing != [] {
      var n := |listing| - 1;
      var prefix, e := listing[..n], listing[n];
      SelectFound(prefix);
      var sel := Select(prefix);
      if Select(listing).Found? {
        if sel.NotFound? {
          SelectNotFound(prefix);
          NewestFirst(listing, Select(listing).date);
        } else if sel.Found? {
          var i :| NewestAt(prefix, i, sel.date) && prefix[i] == sel.entry;
          if Select(listing) == sel {
            NewestKeeps(listing, i, sel.date);
          } else {
            NewestExtends(listing, i, sel.date, Select(listing).date);
          }
        }
      }
    }
  }

  lemma NewestFirst(listing: seq<DirEntry>, d: Ymd)
    requires |listing| > 0 && forall j :: 0 <= j < |listing| - 1 ==> !Candidate(listing[j])
    requires Candidate(listing[|listing| - 1]) && EntryDate(listing[|listing| - 1]) == Some(d)
    ensures NewestAt(listing, |listing| - 1, d)
  {
  }

  lemma NewestKeeps(listing: seq<DirEntry>, i: int, d: Ymd)
    requires |listing| > 0 && NewestAt(listing[..|listing| - 1], i, d)
    requires var e := listing[|listing| - 1];
      Candidate(e) ==> EntryDate(e).Some? && !Later(EntryDate(e).value, d)
    ensures NewestAt(listing, i, d)
  {
    assert forall j :: 0 <= j < |listing| - 1 ==> listing[..|listing| - 1][j] == listing[j];
  }

  lemma NewestExtends(listing: seq<DirEntry>, i: int, d: Ymd, d': Ymd)
    requires |listing| > 0 && NewestAt(listing[..|listing| - 1], i, d)
    requires Candidate(listing[|listing| - 1]) && EntryDate(listing[|listing| - 1]) == Some(d')
    requires Later(d', d)
    ensures NewestAt(listing, |listing| - 1, d')
  {
    var n := |listing| - 1;
    var prefix := listing[..n];
    forall j | 0 <= j < n && Candidate(listing[j])
      ensures EntryDate(listing[j]).Some? && Later(d', EntryDate(listing[j]).value)
    {
      assert prefix[j] == listing[j];
      var dj := EntryDate(listing[j]).value;
      LaterOrder(d', d, dj);
      LaterOrder(dj, d, d');
    }
  }

  /** At most one entry is the newest. */
  lemma NewestUnique(listing: seq<DirEntry>, i: int, d: Ymd, i': int, d': Ymd)
    requires NewestAt(listing, i, d) && NewestAt(listing, i', d')
    ensures i == i' && d == d'
  {
    if i < i' || i' < i {
      assert false;
    }
  }

  /** The selection is exactly the newest entry, whenever there is one. */
  lemma SelectFoundIff(listing: seq<DirEntry>, e: DirEntry, d: Ymd)
    ensures Select(listing) == Found(e, d) <==> exists i :: NewestAt(listing, i, d) && listing[i] == e
  {
    var sel := Select(listing);
    SelectFound(listing);
    if exists i :: NewestAt(listing, i, d) && listing[i] == e {
      var i :| NewestAt(listing, i, d) && listing[i] == e;
      assert sel.Found? by {
        SelectNotFound(listing);
        SelectInvalid(listing);
      }
      var i' :| NewestAt(listing, i', sel.date) && listing[i'] == sel.entry;
      NewestUnique(listing, i, d, i', sel.date);
    }
  }

  // ---------------------------------------------------------------- the aggregation, as values

  /** The state `run` updates: `urls_statistics` (its keys in insertion order and the stats as
      values) and the two totals. */
  datatype Agg = Agg(order: seq<string>, stats: map<string, Fields>, countTotal: int, timeTotal: real)

  predicate Distinct(xs: seq<string>) {
    forall i, j :: 0 <= i < j < |xs| ==> xs[i] != xs[j]
  }

  /** The dictionary's keys are the insertion order's elements, each once, and every stat is
      stored under its own url. */
  ghost predicate Keyed(a: Agg) {
    && (forall u :: u in a.stats <==> u in a.order)
    && Distinct(a.order)
    && (forall u :: u in a.stats ==> a.stats[u].url == u)
  }

  function CountOf(f: Fields): real { f.count as real }
  function TimeOf(f: Fields): real { Sum(f.times) }
  function CountPercOf(f: Fields): real { f.countPerc }
  function TimePercOf(f: Fields): real { f.timePerc }

  /** `field` summed over the stats of `order`. */
  function SumBy(order: seq<string>, stats: map<string, Fields>, field: Fields -> real): real {
    if order == [] then 0.0
    else
      var u := order[|order| - 1];
      SumBy(order[..|order| - 1], stats, field) + (if u in stats then field(stats[u]) else 0.0)
  }

  /** What the loop of `run` keeps: the keys as above, every stat has as many durations as its
      count and at least one, the counts sum to `count_total` and the durations to
      `time_total`. */
  ghost predicate WellFormed(a: Agg) {
    && Keyed(a)
    && (forall u :: u in a.stats ==> a.stats[u].count == |a.stats[u].times| > 0)
    && a.countTotal as real == SumBy(a.order, a.stats, CountOf)
    && a.timeTotal == SumBy(a.order, a.stats, TimeOf)
  }

  /** The empty dictionary and zero totals of `App.__init__`. */
  function Initial(): Agg {
    Agg([], map[], 0, 0.0)
  }

  /** `if log.url not in self.urls_statistics: self.urls_statistics[log.url] = UrlStat(url=log.url)`. */
  function Touch(a: Agg, url: string): (r: Agg)
    ensures url in r.stats
  {
    if url in a.stats then a else a.(order := a.order + [url], stats := a.stats[url := Fresh(url)])
  }

  /** `log_stat.count += 1`, `log_stat.times.append(d)` and the two totals. */
  function Bump(a: Agg, url: string, d: real): Agg
    requires url in a.stats
  {
    var f := a.stats[url];
    a.(stats := a.stats[url := f.(count := f.count + 1, times := f.times + [d])],
       countTotal := a.countTotal + 1, timeTotal := a.timeTotal + d)
  }

  /** One parsed record: the stat is looked up or created, then updated. */
  function Add(a: Agg, url: string, d: real): Agg {
    Bump(Touch(a, url), url, d)
  }

  /** One line of the loop of `run`: the new state, the exception, and whether the loop breaks.
      An unmatched line is skipped, a ValueError from `parse_log` escapes, and the loop breaks
      once `count_total` exceeds 1000. */
  function Feed(line: string, a: Agg, parseDate: string -> Option<DateTime>): (Agg, Option<PyError>, bool) {
    match ParseLog(line, parseDate)
    case NoMatch => (a, None, false)
    case Raised(e) => (a, Some(e), false)
    case Matched(log) =>
      var b := Add(a, log.url, log.duration);
      (b, None, b.countTotal > 1000)
  }

  /** The whole loop over the lines: `Feed` line after line until one raises or breaks. */
  function Consume(lines: seq<string>, a: Agg, parseDate: string -> Option<DateTime>): (Agg, Option<PyError>)
    decreases |lines|
  {
    if lines == [] then (a, None)
    else
      var (b, err, stop) := Feed(lines[0], a, parseDate);
      if err.Some? || stop then (b, err) else Consume(lines[1..], b, parseDate)
  }

  /** The loop stops at a line that raises or that breaks, and otherwise goes on with the rest. */
  lemma ConsumeFeed(lines: seq<string>, i: nat, a: Agg, parseDate: string -> Option<DateTime>)
    requires i < |lines|
    ensures var (b, err, stop) := Feed(lines[i], a, parseDate);
      Consume(lines[i..], a, parseDate) == if err.Some? || stop then (b, err) else Consume(lines[i + 1..], b, parseDate)
  {
    assert lines[i..][0] == lines[i] && lines[i..][1..] == lines[i + 1..];
  }

  /** `compute_values(count_total, time_total)` on every stat in insertion order; the first
      exception stops the loop. */
  function ComputeAll(order: seq<string>, stats: map<string, Fields>, countTotal: int, timeTotal: real)
    : (map<string, Fields>, Option<PyError>)
  {
    if order == [] then (stats, None)
    else if order[0] !in stats then ComputeAll(order[1..], stats, countTotal, timeTotal)
    else
      var (g, err) := Compute(stats[order[0]], countTotal, timeTotal);
      var s := stats[order[0] := g];
      if err.Some? then (s, err) else ComputeAll(order[1..], s, countTotal, timeTotal)
  }

  // ---------------------------------------------------------------- save_report

  /** `f"report_{log_date.strftime('%Y.%m.%d')}.html"`. */
  function ReportName(d: Ymd): string
    requires ValidDate(d)
  {
    assert Pow10(4) == 10000 && Pow10(2) == 100;
    "report_" + PadDigits(d.year, 4) + "." + PadDigits(d.month, 2) + "." + PadDigits(d.day, 2) + ".html"
  }

  /** `[log_stat.to_dict() for log_stat in self.urls_statistics.values()]`. */
  function StatRows(order: seq<string>, stats: map<string, Fields>, env: Env): seq<seq<Attr>> {
    if order == [] then []
    else (if order[0] in stats then [Row(stats[order[0]], env)] else []) + StatRows(order[1..], stats, env)
  }

  /** `x["time_sum"]`: every row of a stat has this key and holds a float there. */
  function TimeSumKey(row: seq<Attr>): real {
    match Lookup(row, "time_sum")
    case Some(Float(x)) => x
    case _ => 0.0
  }

  /** `sorted(rows, key=lambda x: x["time_sum"], reverse=True)`. */
  function Rows(a: Agg, env: Env): seq<seq<Attr>> {
    SortDesc(StatRows(a.order, a.stats, env), TimeSumKey)
  }

  // ---------------------------------------------------------------- run

  /** What `run` leaves behind: no report, an exception, or the report file and its rows. */
  datatype Outcome = NoReport | Failed(error: PyError) | Written(dir: string, name: string, rows: seq<seq<Attr>>)

  /** `run` from the state `a`: the outcome and the new state. */
  function RunSpec(listing: seq<DirEntry>, contents: string -> seq<string>,
                   parseDate: string -> Option<DateTime>, env: Env, dirReport: string, a: Agg): (Outcome, Agg)
  {
    match Select(listing)
    case NotFound => (NoReport, a)
    case Invalid => (Failed(ValueError), a)
    case Found(e, date) =>
      var (b, err) := Consume(contents(e.name), a, parseDate);
      if err.Some? then (Failed(err.value), b)
      else
        var (s, err') := ComputeAll(b.order, b.stats, b.countTotal, b.timeTotal);
        var c := b.(stats := s);
        if err'.Some? then (Failed(err'.value), c)
        else (Written(dirReport, ReportName(date), Rows(c, env)), c)
  }

  // ---------------------------------------------------------------- what the loop of run keeps

  lemma {:induction false} SumByIgnores(order: seq<string>, stats: map<string, Fields>, u: string, x: Fields,
                                        field: Fields -> real)
    requires u !in order
    ensures SumBy(order, stats[u := x], field) == SumBy(order, stats, field)
  {
    if order != [] {
      SumByIgnores(order[..|order| - 1], stats, u, x, field);
    }
  }

  /** Replacing the stat of a url listed once changes the sum by the difference. */
  lemma {:induction false} SumByUpdate(order: seq<string>, stats: map<string, Fields>, u: string, x: Fields,
                                       field: Fields -> real)
    requires Distinct(order) && u in order && u in stats
    ensures SumBy(order, stats[u := x], field) == SumBy(order, stats, field) - field(stats[u]) + field(x)
  {
    var n := |order| - 1;
    var prefix := order[..n];
    if order[n] == u {
      assert u !in prefix;
      SumByIgnores(prefix, stats, u, x, field);
    } else {
      assert u in prefix by {
        var k :| 0 <= k < |order| && order[k] == u;
        assert prefix[k] == u;
      }
      SumByUpdate(prefix, stats, u, x, field);
    }
  }

  /** Adding a record keeps the aggregate well formed. */
  lemma AddWellFormed(a: Agg, url: string, d: real)
    requires WellFormed(a)
    ensures WellFormed(Add(a, url, d))
  {
    AddKeyed(a, url, d);
    AddCounts(a, url, d);
    AddTotals(a, url, d);
  }

  lemma AddKeyed(a: Agg, url: string, d: real)
    requires Keyed(a)
    ensures Keyed(Add(a, url, d))
  {
    var b := Add(a, url, d);
    if url !in a.stats {
      assert Distinct(b.order) by {
        forall i, j | 0 <= i < j < |b.order| ensures b.order[i] != b.order[j] {
          if j == |a.order| {
            assert b.order[i] in a.order;
          }
        }
      }
    }
  }

  lemma AddCounts(a: Agg, url: string, d: real)
    requires forall u :: u in a.stats ==> a.stats[u].count == |a.stats[u].times| > 0
    ensures var b := Add(a, url, d);
      forall u :: u in b.stats ==> b.stats[u].count == |b.stats[u].times| > 0
  {
  }

  lemma AddTotals(a: Agg, url: string, d: real)
    requires Keyed(a)
    requires a.countTotal as real == SumBy(a.order, a.stats, CountOf)
    requires a.timeTotal == SumBy(a.order, a.stats, TimeOf)
    ensures var b := Add(a, url, d);
      b.countTotal as real == SumBy(b.order, b.stats, CountOf) && b.timeTotal == SumBy(b.order, b.stats, TimeOf)
  {
    var b := Add(a, url, d);
    var g := b.stats[url];
    if url in a.stats {
      SumByUpdate(a.order, a.stats, url, g, CountOf);
      SumByUpdate(a.order, a.stats, url, g, TimeOf);
      SumAppend(a.stats[url].times, d);
    } else {
      assert b.stats == a.stats[url := g] && b.order == a.order + [url];
      SumByIgnores(a.order, a.stats, url, g, CountOf);
      SumByIgnores(a.order, a.stats, url, g, TimeOf);
      assert b.order[..|b.order| - 1] == a.order;
      assert Sum(g.times) == d by {
        SumAppend([], d);
        assert [] + [d] == g.times;
      }
    }
  }

  /** The whole loop keeps the aggregate well formed. */
  lemma {:induction false} ConsumeWellFormed(lines: seq<string>, a: Agg, parseDate: string -> Option<DateTime>)
    requires WellFormed(a)
    ensures WellFormed(Consume(lines, a, parseDate).0)
    decreases |lines|
  {
    if lines != [] {
      var (b, err, stop) := Feed(lines[0], a, parseDate);
      FeedWellFormed(lines[0], a, parseDate);
      if !(err.Some? || stop) {
        ConsumeWellFormed(lines[1..], b, parseDate);
      }
    }
  }

  /** One line keeps the keys, counts and totals consistent. */
  lemma FeedWellFormed(line: string, a: Agg, parseDate: string -> Option<DateTime>)
    requires WellFormed(a)
    ensures WellFormed(Feed(line, a, parseDate).0)
  {
    if ParseLog(line, parseDate).Matched? {
      var log := ParseLog(line, parseDate).log;
      AddWellFormed(a, log.url, log.duration);
    }
  }

  /** A line `parse_log` does not match changes nothing: neither the dictionary nor the totals. */
  lemma {:induction false} ConsumeSkips(before: seq<string>, line: string, after: seq<string>, a: Agg,
                                        parseDate: string -> Option<DateTime>)
    requires ParseLog(line, parseDate).NoMatch?
    ensures Consume(before + [line] + after, a, parseDate) == Consume(before + after, a, parseDate)
    decreases |before|
  {
    if before == [] {
      assert before + [line] + after == [line] + after;
      assert ([line] + after)[1..] == after;
      assert before + after == after;
    } else {
      var xs, ys := before + [line] + after, before + after;
      var (b, err, stop) := Feed(before[0], a, parseDate);
      assert xs[0] == before[0] && ys[0] == before[0];
      if !(err.Some? || stop) {
        assert xs[1..] == before[1..] + [line] + after;
        assert ys[1..] == before[1..] + after;
        ConsumeSkips(before[1..], line, after, b, parseDate);
      }
    }
  }

  /** The loop never lowers `count_total` and stops once it exceeds 1000: from a fresh `App` at
      most 1001 records are aggregated. */
  lemma {:induction false} ConsumeCutoff(lines: seq<string>, a: Agg, parseDate: string -> Option<DateTime>)
    ensures var b := Consume(lines, a, parseDate).0;
      a.countTotal <= b.countTotal <= (if a.countTotal >= 1000 then a.countTotal + 1 else 1001)
    decreases |lines|
  {
    if lines != [] {
      var (b, err, stop) := Feed(lines[0], a, parseDate);
      FeedCount(lines[0], a, parseDate);
      if !(err.Some? || stop) {
        ConsumeCutoff(lines[1..], b, parseDate);
      }
    }
  }

  /** One line adds at most one record, and the loop breaks exactly when that record takes
      `count_total` past 1000. */
  lemma FeedCount(line: string, a: Agg, parseDate: string -> Option<DateTime>)
    ensures var (b, err, stop) := Feed(line, a, parseDate);
      || (b.countTotal == a.countTotal && !stop)
      || (b.countTotal == a.countTotal + 1 && err.None? && (stop <==> b.countTotal > 1000))
  {
  }

  // ---------------------------------------------------------------- compute_values on every stat

  /** The two maps have the same keys, and each stat the same url, count and durations. */
  ghost predicate SameRecords(s: map<string, Fields>, s': map<string, Fields>) {
    && (forall u :: u in s' <==> u in s)
    && (forall u :: u in s ==> s'[u].url == s[u].url && s'[u].count == s[u].count && s'[u].times == s[u].times)
  }

  /** Only derived fields change, whether or not an exception stops the loop. */
  lemma {:induction false} ComputeAllKeeps(order: seq<string>, stats: map<string, Fields>, countTotal: int,
                                           timeTotal: real)
    ensures SameRecords(stats, ComputeAll(order, stats, countTotal, timeTotal).0)
    decreases |order|
  {
    if order != [] {
      if order[0] in stats {
        ComputeKeeps(stats[order[0]], countTotal, timeTotal);
        var (g, err) := Compute(stats[order[0]], countTotal, timeTotal);
        if err.None? {
          ComputeAllKeeps(order[1..], stats[order[0] := g], countTotal, timeTotal);
        }
      } else {
        ComputeAllKeeps(order[1..], stats, countTotal, timeTotal);
      }
    }
  }

  /** Sums of counts and of durations depend only on what `compute_values` leaves alone. */
  lemma {:induction false} SumBySameRecords(order: seq<string>, s: map<string, Fields>, s': map<string, Fields>)
    requires SameRecords(s, s')
    ensures SumBy(order, s', CountOf) == SumBy(order, s, CountOf)
    ensures SumBy(order, s', TimeOf) == SumBy(order, s, TimeOf)
    decreases |order|
  {
    if order != [] {
      SumBySameRecords(order[..|order| - 1], s, s');
    }
  }

  /** A well-formed aggregate stays well formed when only derived fields change. */
  lemma SameRecordsWellFormed(a: Agg, s: map<string, Fields>)
    requires WellFormed(a) && SameRecords(a.stats, s)
    ensures WellFormed(a.(stats := s))
  {
    SumBySameRecords(a.order, a.stats, s);
  }

  /** When every listed stat has durations, the loop raises exactly when there is a stat and a
      total is zero, and then division by zero. */
  lemma {:induction false} ComputeAllRaises(order: seq<string>, stats: map<string, Fields>, countTotal: int,
                                            timeTotal: real)
    requires forall u :: u in order ==> u in stats && |stats[u].times| > 0
    ensures ComputeAll(order, stats, countTotal, timeTotal).1
      == if |order| > 0 && (countTotal == 0 || timeTotal == 0.0) then Some(ZeroDivisionError) else None
    decreases |order|
  {
    if order != [] {
      var u := order[0];
      ComputeRaises(stats[u], countTotal, timeTotal);
      ComputeKeeps(stats[u], countTotal, timeTotal);
      var (g, err) := Compute(stats[u], countTotal, timeTotal);
      if err.None? {
        ComputeAllRaises(order[1..], stats[u := g], countTotal, timeTotal);
      }
    }
  }

  /** Without an exception each listed stat is computed once and the others are left alone. */
  lemma {:induction false} ComputeAllValues(order: seq<string>, stats: map<string, Fields>, countTotal: int,
                                            timeTotal: real)
    requires Distinct(order) && ComputeAll(order, stats, countTotal, timeTotal).1.None?
    ensures var r := ComputeAll(order, stats, countTotal, timeTotal).0;
      forall u :: u in stats ==> u in r && r[u] == if u in order then Compute(stats[u], countTotal, timeTotal).0 else stats[u]
    decreases |order|
  {
    ComputeAllKeeps(order, stats, countTotal, timeTotal);
    if order != [] {
      var u0 := order[0];
      assert Distinct(order[1..]);
      assert forall u :: u in order <==> u == u0 || u in order[1..];
      if u0 in stats {
        var (g, err) := Compute(stats[u0], countTotal, timeTotal);
        ComputeAllValues(order[1..], stats[u0 := g], countTotal, timeTotal);
        assert u0 !in order[1..];
      } else {
        ComputeAllValues(order[1..], stats, countTotal, timeTotal);
      }
    }
  }

  lemma PercentAdd(x: real, y: real, whole: real)
    requires whole != 0.0
    ensures Percent(x + y, whole) == Percent(x, whole) + Percent(y, whole)
  {
  }

  lemma PercentWhole(whole: real)
    requires whole != 0.0
    ensures Percent(whole, whole) == 100.0
  {
  }

  /** Summing percentages of one whole is taking the percentage of the sum. */
  lemma {:induction false} SumByPercent(order: seq<string>, s: map<string, Fields>, stats: map<string, Fields>,
                                        part: Fields -> real, perc: Fields -> real, whole: real)
    requires whole != 0.0
    requires forall u :: u in order ==> u in s && u in stats && perc(s[u]) == Percent(part(stats[u]), whole)
    ensures SumBy(order, s, perc) == Percent(SumBy(order, stats, part), whole)
  {
    if order != [] {
      var n := |order| - 1;
      SumByPercent(order[..n], s, stats, part, perc, whole);
      PercentAdd(SumBy(order[..n], stats, part), part(stats[order[n]]), whole);
    }
  }

  lemma {:induction false} SumByAtLeast(order: seq<string>, stats: map<string, Fields>, field: Fields -> real)
    requires forall u :: u in order ==> u in stats && field(stats[u]) >= 1.0
    ensures SumBy(order, stats, field) >= |order| as real
  {
    if order != [] {
      SumByAtLeast(order[..|order| - 1], stats, field);
    }
  }

  /** After a loop without exception the `count_perc` values and the `time_perc` values of all
      stats each sum to 100. */
  lemma ComputeAllPercentages(a: Agg)
    requires WellFormed(a) && |a.order| > 0 && a.timeTotal != 0.0
    ensures var (s, err) := ComputeAll(a.order, a.stats, a.countTotal, a.timeTotal);
      && err.None?
      && SumBy(a.order, s, CountPercOf) == 100.0
      && SumBy(a.order, s, TimePercOf) == 100.0
  {
    var ct, tt := a.countTotal, a.timeTotal;
    SumByAtLeast(a.order, a.stats, CountOf);
    ComputeAllRaises(a.order, a.stats, ct, tt);
    ComputeAllValues(a.order, a.stats, ct, tt);
    var s := ComputeAll(a.order, a.stats, ct, tt).0;
    forall u | u in a.order
      ensures u in s && u in a.stats
      ensures CountPercOf(s[u]) == Percent(CountOf(a.stats[u]), ct as real)
      ensures TimePercOf(s[u]) == Percent(TimeOf(a.stats[u]), tt)
    {
      ComputeRaises(a.stats[u], ct, tt);
      ComputePercentages(a.stats[u], ct, tt);
    }
    SumByPercent(a.order, s, a.stats, CountOf, CountPercOf, ct as real);
    SumByPercent(a.order, s, a.stats, TimeOf, TimePercOf, tt);
    PercentWhole(ct as real);
    PercentWhole(tt);
  }

  // ---------------------------------------------------------------- what save_report promises

  /** The report name spells the eight digits of the chosen file's name. */
  lemma ReportNameOfDigits(ds: string)
    requires |ds| == 8 && AllDigits(ds) && ParseYmd(ds).Some?
    ensures ReportName(ParseYmd(ds).value) == "report_" + ds[..4] + "." + ds[4..6] + "." + ds[6..] + ".html"
  {
    PadDigitsOfDigits(ds[..4]);
    PadDigitsOfDigits(ds[4..6]);
    PadDigitsOfDigits(ds[6..]);
  }

  lemma {:induction false} StatRowsOf(order: seq<string>, stats: map<string, Fields>, env: Env)
    requires forall u :: u in order ==> u in stats
    ensures |StatRows(order, stats, env)| == |order|
    ensures forall k :: 0 <= k < |order| ==> StatRows(order, stats, env)[k] == Row(stats[order[k]], env)
  {
    if order != [] {
      StatRowsOf(order[1..], stats, env);
      var rows := StatRows(order, stats, env);
      assert forall k :: 1 <= k < |order| ==> rows[k] == StatRows(order[1..], stats, env)[k - 1];
    }
  }

  /** The sort key of a stat's row is its rounded `time_sum`. */
  lemma RowKey(f: Fields, env: Env)
    ensures TimeSumKey(Row(f, env)) == env.round3(f.timeSum)
  {
    RowTimeSum(f, env);
  }

  /** The report holds one row per stat, in non-increasing order of the rounded `time_sum`. */
  lemma RowsSorted(a: Agg, env: Env)
    requires Keyed(a)
    ensures var rows, listed := Rows(a, env), StatRows(a.order, a.stats, env);
      && |listed| == |a.order|
      && (forall k :: 0 <= k < |a.order| ==>
            listed[k] == Row(a.stats[a.order[k]], env)
            && TimeSumKey(listed[k]) == env.round3(a.stats[a.order[k]].timeSum))
      && multiset(rows) == multiset(listed)
      && (forall i :: 0 <= i < |rows| - 1 ==> TimeSumKey(rows[i]) >= TimeSumKey(rows[i + 1]))
  {
    StatRowsOf(a.order, a.stats, env);
    forall k | 0 <= k < |a.order| ensures TimeSumKey(Row(a.stats[a.order[k]], env)) == env.round3(a.stats[a.order[k]].timeSum) {
      RowKey(a.stats[a.order[k]], env);
    }
  }

  // ---------------------------------------------------------------- what run promises

  /** No candidate file: `run` returns at once and the state is untouched. */
  lemma RunNoLog(listing: seq<DirEntry>, contents: string -> seq<string>, parseDate: string -> Option<DateTime>,
                 env: Env, dirReport: string, a: Agg)
    requires forall i :: 0 <= i < |listing| ==> !Candidate(listing[i])
    ensures RunSpec(listing, contents, parseDate, env, dirReport, a) == (NoReport, a)
  {
    SelectNotFound(listing);
  }

  /** A written report is named after the newest candidate and lies in the report directory. */
  lemma RunReportName(listing: seq<DirEntry>, contents: string -> seq<string>,
                      parseDate: string -> Option<DateTime>, env: Env, dirReport: string, a: Agg)
    requires RunSpec(listing, contents, parseDate, env, dirReport, a).0.Written?
    ensures var out := RunSpec(listing, contents, parseDate, env, dirReport, a).0;
      && out.dir == dirReport
      && exists i :: NewestAt(listing, i, Select(listing).date) && ReportNameFits(out.name, listing[i])
  {
    var out := RunSpec(listing, contents, parseDate, env, dirReport, a).0;
    var sel := Select(listing);
    RunSpecWritten(listing, contents, parseDate, env, dirReport, a);
    SelectFound(listing);
    var i :| NewestAt(listing, i, sel.date) && listing[i] == sel.entry;
    var ds := LogNameDigits(listing[i].name).value;
    assert sel.date == ParseYmd(ds).value;
    ReportNameOfDigits(ds);
  }

  /** A written report comes from a selected file and is named after its date. */
  lemma RunSpecWritten(listing: seq<DirEntry>, contents: string -> seq<string>,
                       parseDate: string -> Option<DateTime>, env: Env, dirReport: string, a: Agg)
    requires RunSpec(listing, contents, parseDate, env, dirReport, a).0.Written?
    ensures var out := RunSpec(listing, contents, parseDate, env, dirReport, a).0;
      Select(listing).Found? && out.dir == dirReport && out.name == ReportName(Select(listing).date)
  {
  }

  /** `name` is `report_YYYY.MM.DD.html` with the digits of the candidate `e`. */
  ghost predicate ReportNameFits(name: string, e: DirEntry) {
    Candidate(e) &&
    var ds := LogNameDigits(e.name).value;
    name == "report_" + ds[..4] + "." + ds[4..6] + "." + ds[6..] + ".html"
  }

  /** From a well-formed state (a fresh `App` is one) a report with at least one row comes with
      `count_perc` values and `time_perc` values that each sum to 100. */
  lemma RunPercentages(listing: seq<DirEntry>, contents: string -> seq<string>,
                       parseDate: string -> Option<DateTime>, env: Env, dirReport: string, a: Agg)
    requires WellFormed(a)
    ensures var (out, c) := RunSpec(listing, contents, parseDate, env, dirReport, a);
      out.Written? && |c.order| > 0 ==>
        SumBy(c.order, c.stats, CountPercOf) == 100.0 && SumBy(c.order, c.stats, TimePercOf) == 100.0
  {
    var (out, c) := RunSpec(listing, contents, parseDate, env, dirReport, a);
    if out.Written? && |c.order| > 0 {
      var e := Select(listing).entry;
      var b := Consume(contents(e.name), a, parseDate).0;
      ConsumeWellFormed(contents(e.name), a, parseDate);
      ComputeAllRaises(b.order, b.stats, b.countTotal, b.timeTotal);
      ComputeAllPercentages(b);
    }
  }

  /** From a well-formed state `run` leaves a well-formed state, whatever its outcome: the
      keys, counts and totals stay consistent even when an exception ends it. */
  lemma RunWellFormed(listing: seq<DirEntry>, contents: string -> seq<string>,
                      parseDate: string -> Option<DateTime>, env: Env, dirReport: string, a: Agg)
    requires WellFormed(a)
    ensures WellFormed(RunSpec(listing, contents, parseDate, env, dirReport, a).1)
  {
    if Select(listing).Found? {
      var e := Select(listing).entry;
      var (b, err) := Consume(contents(e.name), a, parseDate);
      ConsumeWellFormed(contents(e.name), a, parseDate);
      if err.None? {
        ComputeAllKeeps(b.order, b.stats, b.countTotal, b.timeTotal);
        SameRecordsWellFormed(b, ComputeAll(b.order, b.stats, b.countTotal, b.timeTotal).0);
      }
    }
  }

  /** A fresh `App` is well formed. */
  lemma InitialWellFormed()
    ensures WellFormed(Initial())
  {
  }

  // ---------------------------------------------------------------- the mutable object

  class App {
    const dirLog: string
    const dirReport: string
    var countTotal: int
    var timeTotal: real
    /** The keys of `urls_statistics` in insertion order, the order `values()` yields them in. */
    var order: seq<string>
    var stats: map<string, UrlStat>
    /** The state above as a value. */
    ghost var model: Agg
    /** The stat objects. */
    ghost var Repr: set<UrlStat>

    /** `model` is the state as a value, and every stat is stored under its own url (so no two
        keys share a stat object). */
    ghost predicate Valid()
      reads this, Repr
    {
      && model.order == order && model.countTotal == countTotal && model.timeTotal == timeTotal
      && (forall u :: u in stats <==> u in model.stats)
      && (forall u :: u in stats ==> stats[u] in Repr && stats[u].url == u && stats[u].Value() == model.stats[u])
    }

    /** `App(root, config)` once both directories exist: zero totals and no stats. */
    constructor (dirLog: string, dirReport: string)
      ensures Valid() && model == Initial()
      ensures this.dirLog == dirLog && this.dirReport == dirReport
    {
      this.dirLog := dirLog;
      this.dirReport := dirReport;
      countTotal := 0;
      timeTotal := 0.0;
      order := [];
      stats := map[];
      model := Initial();
      Repr := {};
    }

    /** `get_last_log_path()` over the entries `dir_log.iterdir()` yields. */
    method GetLastLogPath(listing: seq<DirEntry>) returns (r: Selection)
      ensures r == Select(listing)
    {
      var lastPath: Option<DirEntry> := None;
      var lastDate: Option<Ymd> := None;
      for i := 0 to |listing|
        invariant lastPath.None? <==> lastDate.None?
        invariant Select(listing[..i]) == if lastDate.None? then NotFound else Found(lastPath.value, lastDate.value)
      {
        var e := listing[i];
        assert listing[..i + 1][..i] == listing[..i];
        if e.isFile {
          var m := LogNameDigits(e.name);
          if m.Some? {
            var date := ParseYmd(m.value);
            if date.None? {
              assert Candidate(listing[..i + 1][i]);
              SelectInvalid(listing[..i + 1]);
              SelectInvalid(listing);
              return Invalid;
            }
            if lastDate.None? || Later(date.value, lastDate.value) {
              lastDate := date;
              lastPath := Some(e);
            }
          }
        }
      }
      assert listing[..|listing|] == listing;
      if lastDate.None? {
        return NotFound;
      }
      return Found(lastPath.value, lastDate.value);
    }

    /** The stat of `url`, created and inserted when missing. */
    method StatFor(url: string) returns (s: UrlStat)
      requires Valid()
      modifies this
      ensures Valid() && Repr == old(Repr) + {s}
      ensures fresh(Repr - old(Repr))
      ensures url in stats && s == stats[url]
      ensures model == Touch(old(model), url)
    {
      if url !in stats {
        var created := new UrlStat(url);
        stats := stats[url := created];
        order := order + [url];
        Repr := Repr + {created};
        model := Touch(model, url);
      }
      s := stats[url];
    }

    /** `log_stat.count += 1`, `log_stat.times.append(log.duration)` and the two totals. */
    method Count(s: UrlStat, url: string, d: real)
      requires Valid() && url in stats && s == stats[url]
      modifies this, s
      ensures Valid() && Repr == old(Repr)
      ensures model == Bump(old(model), url, d)
    {
      s.count := s.count + 1;
      s.AppendTime(d);
      countTotal := countTotal + 1;
      timeTotal := timeTotal + d;
      model := Bump(model, url, d);
    }

    /** The body of the loop of `run` for one line: skipped when it does not match, the
        exception when `parse_log` raises, and otherwise recorded, with `stop` set once
        `count_total` exceeds 1000. */
    method Line(line: string, parseDate: string -> Option<DateTime>) returns (err: Option<PyError>, stop: bool)
      requires Valid()
      modifies this, Repr
      ensures Valid()
      ensures fresh(Repr - old(Repr)) && old(Repr) <= Repr
      ensures (model, err, stop) == Feed(line, old(model), parseDate)
    {
      var parsed := ParseLog(line, parseDate);
      match parsed {
        case NoMatch =>
          return None, false;
        case Raised(e) =>
          return Some(e), false;
        case Matched(log) =>
          var s := StatFor(log.url);
          Count(s, log.url, log.duration);
          return None, countTotal > 1000;
      }
    }

    /** The loop of `run` over the lines of the chosen file. */
    method Aggregate(lines: seq<string>, parseDate: string -> Option<DateTime>) returns (err: Option<PyError>)
      requires Valid()
      modifies this, Repr
      ensures Valid()
      ensures fresh(Repr - old(Repr)) && old(Repr) <= Repr
      ensures (model, err) == Consume(lines, old(model), parseDate)
    {
      ghost var result := Consume(lines, model, parseDate);
      var i := 0;
      while i < |lines|
        invariant 0 <= i <= |lines|
        invariant Valid()
        invariant fresh(Repr - old(Repr)) && old(Repr) <= Repr
        invariant Consume(lines[i..], model, parseDate) == result
      {
        ghost var before := model;
        var stop;
        err, stop := Line(lines[i], parseDate);
        ConsumeFeed(lines, i, before, parseDate);
        if err.Some? || stop {
          return;
        }
        i := i + 1;
      }
      assert lines[i..] == [];
      return None;
    }

    /** `log_stat.compute_values(self.count_total, self.time_total)` for the stat of `url`. */
    method ComputeOne(url: string) returns (err: Option<PyError>)
      requires Valid() && url in stats
      modifies this, stats[url]
      ensures Valid() && Repr == old(Repr)
      ensures order == old(order) && stats == old(stats)
      ensures model == old(model).(stats := old(model.stats)[url := Compute(old(model.stats[url]), countTotal, timeTotal).0])
      ensures err == Compute(old(model.stats[url]), countTotal, timeTotal).1
    {
      var s := stats[url];
      ComputeKeeps(s.Value(), countTotal, timeTotal);
      err := s.ComputeValues(countTotal, timeTotal);
      model := model.(stats := model.stats[url := s.Value()]);
    }

    /** The loop over `urls_statistics.values()` that computes every stat; the first exception
        ends it. */
    method ComputeStats() returns (err: Option<PyError>)
      requires Valid()
      modifies this, Repr
      ensures Valid() && Repr == old(Repr)
      ensures model == old(model).(stats := model.stats)
      ensures (model.stats, err) == ComputeAll(order, old(model.stats), countTotal, timeTotal)
    {
      for k := 0 to |order|
        invariant Valid() && Repr == old(Repr)
        invariant model == old(model).(stats := model.stats)
        invariant ComputeAll(order[k..], model.stats, countTotal, timeTotal)
          == ComputeAll(order, old(model.stats), countTotal, timeTotal)
      {
        assert order[k..][0] == order[k] && order[k..][1..] == order[k + 1..];
        if order[k] in stats {
          err := ComputeOne(order[k]);
          if err.Some? {
            return;
          }
        }
      }
      assert order[|order|..] == [];
      return None;
    }

    /** `save_report(log_date)`: the report's directory and file name, and the rows it holds,
        one per stat sorted by `time_sum`, largest first. */
    method SaveReport(logDate: Ymd, env: Env) returns (out: Outcome)
      requires Valid() && ValidDate(logDate)
      ensures out == Written(dirReport, ReportName(logDate), Rows(model, env))
    {
      var rows: seq<seq<Attr>> := [];
      for k := 0 to |order|
        invariant rows + StatRows(order[k..], model.stats, env) == StatRows(order, model.stats, env)
      {
        assert order[k..][0] == order[k] && order[k..][1..] == order[k + 1..];
        if order[k] in stats {
          rows := rows + [Row(stats[order[k]].Value(), env)];
        } else {
          assert order[k] !in model.stats;
        }
      }
      assert order[|order|..] == [];
      assert rows == StatRows(model.order, model.stats, env);
      out := Written(dirReport, ReportName(logDate), SortDesc(rows, TimeSumKey));
    }

    /** `run()`: pick the newest log, fold its lines into the statistics, compute every stat and
        write the report. */
    method Run(listing: seq<DirEntry>, contents: string -> seq<string>,
               parseDate: string -> Option<DateTime>, env: Env) returns (out: Outcome)
      requires Valid()
      modifies this, Repr
      ensures Valid()
      ensures (out, model) == RunSpec(listing, contents, parseDate, env, dirReport, old(model))
    {
      var sel := GetLastLogPath(listing);
      if sel.NotFound? {
        return NoReport;
      } else if sel.Invalid? {
        return Failed(ValueError);
      }
      var err := Aggregate(contents(sel.entry.name), parseDate);
      if err.Some? {
        return Failed(err.value);
      }
      err := ComputeStats();
      if err.Some? {
        return Failed(err.value);
      }
      out := SaveReport(sel.date, env);
    }
  }
}
