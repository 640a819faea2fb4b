/** `UrlStat` (src/url_stat.py; the copy in src/app.py:27-52 is identical): the timing
    statistics of one URL. Durations are appended to it one by one, and `compute_values` then
    overwrites the derived fields in place.

    `Fields` is the dataclass's state as a value; the class `UrlStat` holds the same fields and
    is specified through `Value()`. */
module UrlStats {
  import opened Builtins
  import opened Utils

  datatype Fields = Fields(
    url: string,
    count: int,
    countPerc: real,
    times: seq<real>,       // `_times`
    timeSum: real,
    timePerc: real,
    timeAvg: real,
    timeMax: real,
    timeMin: real,          // `_time_min`
    timeMed: real)

  /** `UrlStat(url=url)`: the dataclass defaults. */
  function Fresh(url: string): Fields {
    Fields(url, 0, 0.0, [], 0.0, 0.0, 0.0, 0.0, 0.0, 0.0)
  }

  /** `compute_values(count_total, time_total)` on a snapshot: the new state and the exception it
      raises, if any. The fields are assigned one statement at a time, so an exception leaves the
      fields assigned before it updated: `sum([])` is stored as `time_sum` before the division by
      `len([])` fails, and the time fields are stored before a zero `count_total` or
      `time_total` is divided by. */
  function Compute(f: Fields, countTotal: int, timeTotal: real): (Fields, Option<PyError>)
  {
    if |f.times| == 0 then (f.(timeSum := Sum(f.times)), Some(ZeroDivisionError))
    else
      var g := Summarise(f);
      if countTotal == 0 then (g, Some(ZeroDivisionError))
      else
        var h := g.(countPerc := Percent(g.count as real, countTotal as real));
        if timeTotal == 0.0 then (h, Some(ZeroDivisionError))
        else (h.(timePerc := Percent(h.timeSum, timeTotal)), None)
  }

  /** The five assignments of the time fields, up to the first division by a total. */
  function Summarise(f: Fields): Fields
    requires |f.times| > 0
  {
    var t := f.times;
    f.(timeSum := Sum(t), timeAvg := Mean(t), timeMax := Max(t), timeMin := Min(t), timeMed := Median(t))
  }

  /** Durations as the list `_times` holds them. */
  function FloatList(ts: seq<real>): (r: seq<Value>)
    ensures |r| == |ts| && forall k :: 0 <= k < |r| ==> r[k] == Float(ts[k])
  {
    if ts == [] then [] else [Float(ts[0])] + FloatList(ts[1..])
  }

  /** The instance `__dict__`, in field declaration order. */
  function Attrs(f: Fields): seq<Attr> {
    [ Attr("url", Str(f.url)),
      Attr("count", Int(f.count)),
      Attr("count_perc", Float(f.countPerc)),
      Attr("_times", List(FloatList(f.times))),
      Attr("time_sum", Float(f.timeSum)),
      Attr("time_perc", Float(f.timePerc)),
      Attr("time_avg", Float(f.timeAvg)),
      Attr("time_max", Float(f.timeMax)),
      Attr("_time_min", Float(f.timeMin)),
      Attr("time_med", Float(f.timeMed)) ]
  }

  /** `stat.to_dict()`: one row of the report. */
  function Row(f: Fields, env: Env): seq<Attr> {
    ToDict(Attrs(f), false, env)
  }

  // ---------------------------------------------------------------- the mutable object

  class UrlStat {
    var url: string
    var count: int
    var countPerc: real
    var times: seq<real>
    var timeSum: real
    var timePerc: real
    var timeAvg: real
    var timeMax: real
    var timeMin: real
    var timeMed: real

    function Value(): Fields
      reads this
    {
      Fields(url, count, countPerc, times, timeSum, timePerc, timeAvg, timeMax, timeMin, timeMed)
    }

    /** `UrlStat(url=url)`: no durations, count 0 and every derived field 0. */
    constructor (url: string)
      ensures Value() == Fresh(url)
    {
      this.url := url;
      count := 0;
      countPerc := 0.0;
      times := [];
      timeSum := 0.0;
      timePerc := 0.0;
      timeAvg := 0.0;
      timeMax := 0.0;
      timeMin := 0.0;
      timeMed := 0.0;
    }

    /** `stat.times.append(d)`: the `times` property returns the stored list itself, so appending
        to what it returns grows the stat's own durations. */
    method AppendTime(d: real)
      modifies this
      ensures Value() == old(Value()).(times := old(times) + [d])
    {
      times := times + [d];
    }

    /** The assignments of `time_avg`, `time_max`, `_time_min` and `time_med`. */
    method AssignSummary()
      requires |times| > 0 && timeSum == Sum(times)
      modifies this
      ensures Value() == Summarise(old(Value()))
    {
      timeAvg := Mean(times);
      timeMax := Max(times);
      timeMin := Min(times);
      timeMed := Median(times);
    }

    method ComputeValues(countTotal: int, timeTotal: real) returns (err: Option<PyError>)
      modifies this
      ensures (Value(), err) == Compute(old(Value()), countTotal, timeTotal)
    {
      timeSum := Sum(times);
      if |times| == 0 {
        return Some(ZeroDivisionError);
      }
      AssignSummary();
      if countTotal == 0 {
        return Some(ZeroDivisionError);
      }
      countPerc := Percent(count as real, countTotal as real);
      if timeTotal == 0.0 {
        return Some(ZeroDivisionError);
      }
      timePerc := Percent(timeSum, timeTotal);
      return None;
    }
  }

  // ---------------------------------------------------------------- what compute_values promises

  /** `compute_values` raises exactly when there are no durations or a total is zero, and then
      always division by zero. */
  lemma ComputeRaises(f: Fields, countTotal: int, timeTotal: real)
    ensures Compute(f, countTotal, timeTotal).1.None? <==>
      |f.times| > 0 && countTotal != 0 && timeTotal != 0.0
    ensures Compute(f, countTotal, timeTotal).1 in {None, Some(ZeroDivisionError)}
  {
  }

  /** Only the derived fields change: the url, the count and the durations stay as they were. */
  lemma ComputeKeeps(f: Fields, countTotal: int, timeTotal: real)
    ensures var g := Compute(f, countTotal, timeTotal).0;
      g.url == f.url && g.count == f.count && g.times == f.times
  {
  }

  /** With at least one duration: `time_sum` is their sum, `time_avg` the sum over the count, the
      maximum and the minimum are among them and bound them all, and both the average and the
      median lie between the minimum and the maximum. */
  lemma ComputeSummary(f: Fields, countTotal: int, timeTotal: real)
    requires |f.times| > 0
    ensures var g, t := Compute(f, countTotal, timeTotal).0, f.times;
      && g.timeSum == Sum(t)
      && g.timeAvg == g.timeSum / |t| as real
      && g.timeMax in t && g.timeMin in t
      && (forall k :: 0 <= k < |t| ==> g.timeMin <= t[k] <= g.timeMax)
      && g.timeMin <= g.timeAvg <= g.timeMax
      && g.timeMin <= g.timeMed <= g.timeMax
  {
    var t, g := f.times, Compute(f, countTotal, timeTotal).0;
    assert g.timeSum == Sum(t) && g.timeAvg == Mean(t) && g.timeMax == Max(t)
      && g.timeMin == Min(t) && g.timeMed == Median(t);
    MeanWithin(t);
    MedianWithin(t);
  }

  /** Without an exception: `count_perc` is the count as a percentage of `count_total` and
      `time_perc` the time sum as a percentage of `time_total`. */
  lemma ComputePercentages(f: Fields, countTotal: int, timeTotal: real)
    requires Compute(f, countTotal, timeTotal).1.None?
    ensures var g := Compute(f, countTotal, timeTotal).0;
      && g.countPerc == Percent(f.count as real, countTotal as real)
      && g.timePerc == Percent(Sum(f.times), timeTotal)
  {
  }

  /** The keys of a report row are exactly the public field names: `_times` and `_time_min` are
      left out. */
  lemma RowKeys(f: Fields, env: Env, n: string)
    ensures n in Names(Row(f, env)) <==>
      n in ["url", "count", "count_perc", "time_sum", "time_perc", "time_avg", "time_max", "time_med"]
  {
    var a := Attrs(f);
    ToDictNames(a, false, env);
    AttrsNames(f);
    VisibleNames(a, n);
    PublicFieldNames(n);
  }

  lemma PublicFieldNames(n: string)
    ensures (n in ["url", "count", "count_perc", "_times", "time_sum", "time_perc", "time_avg",
                   "time_max", "_time_min", "time_med"] && !IsPrivate(n))
      <==> n in ["url", "count", "count_perc", "time_sum", "time_perc", "time_avg", "time_max", "time_med"]
  {
  }

  lemma AttrsNames(f: Fields)
    ensures Names(Attrs(f)) == ["url", "count", "count_perc", "_times", "time_sum", "time_perc",
                                "time_avg", "time_max", "_time_min", "time_med"]
  {
  }

  /** A row's `time_sum`, the key the report is sorted by, is the rounded sum of the durations'
      field. */
  lemma RowTimeSum(f: Fields, env: Env)
    ensures Lookup(Row(f, env), "time_sum") == Some(Float(env.round3(f.timeSum)))
  {
    LookupTimeSum(f);
    ToDictLookup(Attrs(f), "time_sum", false, env);
  }

  lemma LookupTimeSum(f: Fields)
    ensures Lookup(Attrs(f), "time_sum") == Some(Float(f.timeSum))
  {
    var a := Attrs(f);
    assert a[0..] == a;
    LookupStep(a, "time_sum", 0);
    LookupStep(a, "time_sum", 1);
    LookupStep(a, "time_sum", 2);
    LookupStep(a, "time_sum", 3);
    LookupStep(a, "time_sum", 4);
  }
}
