/**
 * The event-log front end (timeplots/logplot.py): the bucketing interval
 * given on the command line, the routing of log lines to timestamps and
 * to the expressions they match, and the counting of events per timestamp
 * into an ascending series.
 */
module LogPlot {
  import opened Wrappers
  import opened Text

  /** A timestamp, in whole seconds, as the log's time parser returns it. */
  type Time = int

  // ---------------------------------------------------------------------
  // get_interval
  // ---------------------------------------------------------------------

  /** The `ValueError("Invalid interval specified.")` of `get_interval`. */
  datatype IntervalError = InvalidInterval

  /** The unit a suffix letter stands for. */
  function UnitName(suffix: char): Option<string> {
    match suffix
    case 's' => Some("seconds")
    case 'm' => Some("minutes")
    case 'h' => Some("hours")
    case 'd' => Some("days")
    case _ => None
  }

  /**
   * Reads an interval such as `30`, `5m` or `1h` into the plot's unit label
   * and the keyword arguments of the time parser (one unit and its
   * magnitude); no interval at all means plain event counts.
   */
  function GetInterval(interval: Option<string>): (r: Result<(string, map<string, int>), IntervalError>)
    ensures r.Success? ==> |r.value.1| <= 1
    ensures r.Success? ==> forall unit :: unit in r.value.1 ==>
      (unit == "seconds" || unit == "minutes" || unit == "hours" || unit == "days") && r.value.1[unit] >= 0
    ensures r.Success? && |r.value.1| == 0 ==> r.value.0 == "events"
  {
    if interval.None? || interval.value == "" then Success(("events", map[]))
    else
      var spec := if IsNumeric(interval.value) then interval.value + "s" else interval.value;
      var value := spec[..|spec| - 1];
      var unit := UnitName(spec[|spec| - 1]);
      if unit.None? || !IsNumeric(value) then Failure(InvalidInterval)
      else Success((IntervalLabel(value, unit.value), map[unit.value := DigitsValue(value) as int]))
  }

  /** The plot's unit label, `events every <value> <unit>`, singular when the value is `1`. */
  function IntervalLabel(value: string, unit: string): string {
    var caption := "events every " + value + " " + unit;
    if value == "1" then DropLast(caption) else caption
  }

  /** No interval, or an empty one, counts plain events. */
  lemma NoIntervalCountsEvents()
    ensures GetInterval(None) == Success(("events", map[]))
    ensures GetInterval(Some("")) == Success(("events", map[]))
  {
  }

  /**
   * A non-empty interval is accepted exactly when it is all digits (read as
   * seconds) or its last character is one of `s`, `m`, `h`, `d` and all
   * that comes before it is digits; so a bare unit such as `m` is refused.
   */
  lemma IntervalAccepted(interval: string)
    requires interval != ""
    ensures GetInterval(Some(interval)).Success? <==>
      IsNumeric(interval) ||
      (UnitName(interval[|interval| - 1]).Some? && IsNumeric(interval[..|interval| - 1]))
  {
    if IsNumeric(interval) {
      var spec := interval + "s";
      assert spec[..|spec| - 1] == interval;
    }
  }

  /** An interval that is all digits means that many seconds. */
  lemma NumericIntervalIsSeconds(interval: string)
    requires IsNumeric(interval)
    ensures GetInterval(Some(interval)).Success?
    ensures GetInterval(Some(interval)).value.1 == map["seconds" := DigitsValue(interval) as int]
  {
    var spec := interval + "s";
    assert spec[..|spec| - 1] == interval;
  }

  lemma ShowNatIsOne(n: nat)
    ensures ShowNat(n) == "1" <==> n == 1
  {
    if n >= 10 {
      assert |ShowNat(n)| == |ShowNat(n / 10)| + 1;
    }
  }

  /** An interval of digits followed by a unit letter reads as that many of that unit. */
  lemma IntervalOfDigits(value: string, suffix: char)
    requires IsNumeric(value) && UnitName(suffix).Some?
    ensures var unit := UnitName(suffix).value;
      GetInterval(Some(value + [suffix])) == Success((IntervalLabel(value, unit), map[unit := DigitsValue(value) as int]))
  {
    var spec := value + [suffix];
    assert !IsNumeric(spec) by {
      assert !IsDigit(spec[|spec| - 1]);
    }
    assert spec[..|spec| - 1] == value;
    assert spec[|spec| - 1] == suffix;
  }

  /**
   * Writing a magnitude and a unit letter and reading it back gives that
   * magnitude in that unit, under the label `events every <n> <unit>`, whose
   * plural `s` is dropped exactly when the magnitude is 1.
   */
  lemma IntervalRoundTrip(n: nat, suffix: char)
    requires UnitName(suffix).Some?
    ensures var unit := UnitName(suffix).value;
      GetInterval(Some(ShowNat(n) + [suffix]))
        == Success((if n == 1 then "events every 1 " + unit[..|unit| - 1]
                    else "events every " + ShowNat(n) + " " + unit,
                    map[unit := n]))
  {
    IntervalOfDigits(ShowNat(n), suffix);
    DigitsValueShowNat(n);
    ShowNatIsOne(n);
    var unit := UnitName(suffix).value;
    if n == 1 {
      var caption := "events every " + "1" + " " + unit;
      assert IntervalLabel(ShowNat(n), unit) == DropLast(caption);
      assert DropLast(caption) == "events every 1 " + unit[..|unit| - 1];
    } else {
      assert IntervalLabel(ShowNat(n), unit) == "events every " + ShowNat(n) + " " + unit;
    }
  }

  // ---------------------------------------------------------------------
  // match_all, match_regex
  // ---------------------------------------------------------------------

  /**
   * Every line's timestamp, one per line, in order. `strptime` stands for
   * the log's time parser; `None` is `get_timestamp`'s answer when that
   * parser raises `ValueError`.
   */
  method MatchAll(strptime: string -> Option<Time>, lines: seq<string>) returns (stamps: seq<Option<Time>>)
    ensures |stamps| == |lines|
    ensures forall i :: 0 <= i < |lines| ==> stamps[i] == strptime(lines[i])
  {
    stamps := [];
    for i := 0 to |lines|
      invariant |stamps| == i
      invariant forall j :: 0 <= j < i ==> stamps[j] == strptime(lines[j])
    {
      stamps := stamps + [strptime(lines[i])];
    }
  }

  /** The matches of one line: each expression that `search` finds in it, in declaration order. */
  function LineMatches(strptime: string -> Option<Time>, search: (string, string) -> bool,
                       line: string, expressions: seq<string>): seq<(string, Option<Time>)>
  {
    if |expressions| == 0 then []
    else
      var last := expressions[|expressions| - 1];
      LineMatches(strptime, search, line, expressions[..|expressions| - 1])
        + (if search(last, line) then [(last, strptime(line))] else [])
  }

  /** The matches of all lines, line by line. */
  function RegexMatches(strptime: string -> Option<Time>, search: (string, string) -> bool,
                        lines: seq<string>, expressions: seq<string>): seq<(string, Option<Time>)>
  {
    if |lines| == 0 then []
    else
      RegexMatches(strptime, search, lines[..|lines| - 1], expressions)
        + LineMatches(strptime, search, lines[|lines| - 1], expressions)
  }

  /**
   * For every line, one `(expression, timestamp)` per expression whose regex
   * `search` finds in the line, in declaration order; no early exit.
   */
  method MatchRegex(strptime: string -> Option<Time>, search: (string, string) -> bool,
                    lines: seq<string>, expressions: seq<string>) returns (matches: seq<(string, Option<Time>)>)
    ensures matches == RegexMatches(strptime, search, lines, expressions)
  {
    matches := [];
    for i := 0 to |lines|
      invariant matches == RegexMatches(strptime, search, lines[..i], expressions)
    {
      assert lines[..i + 1][..i] == lines[..i];
      var line := lines[i];
      for j := 0 to |expressions|
        invariant matches == RegexMatches(strptime, search, lines[..i], expressions)
          + LineMatches(strptime, search, line, expressions[..j])
      {
        assert expressions[..j + 1][..j] == expressions[..j];
        var expression := expressions[j];
        if search(expression, line) {
          matches := matches + [(expression, strptime(line))];
        }
      }
      assert expressions[..|expressions|] == expressions;
    }
    assert lines[..|lines|] == lines;
  }

  // ---------------------------------------------------------------------
  // The per-expression buckets of main
  // ---------------------------------------------------------------------

  /** The timestamps recorded for one expression, in order. */
  function TimesFor(matches: seq<(string, Option<Time>)>, expression: string): seq<Option<Time>> {
    if |matches| == 0 then []
    else
      var last := matches[|matches| - 1];
      TimesFor(matches[..|matches| - 1], expression) + (if last.0 == expression then [last.1] else [])
  }

  lemma {:induction false} TimesForAppend(a: seq<(string, Option<Time>)>, b: seq<(string, Option<Time>)>, expression: string)
    ensures TimesFor(a + b, expression) == TimesFor(a, expression) + TimesFor(b, expression)
    decreases |b|
  {
    if |b| == 0 {
      assert a + b == a;
    } else {
      assert (a + b)[..|a + b| - 1] == a + b[..|b| - 1];
      TimesForAppend(a, b[..|b| - 1], expression);
    }
  }

  /** The expressions that occur in the matches. */
  function Expressions(matches: seq<(string, Option<Time>)>): set<string> {
    if |matches| == 0 then {}
    else Expressions(matches[..|matches| - 1]) + {matches[|matches| - 1].0}
  }

  /** The buckets of the first `i` matches. */
  ghost predicate BucketedUpTo(matches: seq<(string, Option<Time>)>, i: nat, buckets: map<string, seq<Option<Time>>>)
    requires i <= |matches|
  {
    && buckets.Keys == Expressions(matches[..i])
    && (forall e :: TimesFor(matches[..i], e) == if e in buckets then buckets[e] else [])
    && (forall e :: e in buckets ==> |buckets[e]| > 0)
  }

  lemma BucketStep(matches: seq<(string, Option<Time>)>, i: nat, buckets: map<string, seq<Option<Time>>>)
    requires i < |matches| && BucketedUpTo(matches, i, buckets)
    ensures var (e, t) := matches[i];
      BucketedUpTo(matches, i + 1, buckets[e := (if e in buckets then buckets[e] else []) + [t]])
  {
    assert matches[..i + 1][..i] == matches[..i];
  }

  /**
   * Groups the timestamps by expression, as the `defaultdict(deque)` of
   * `main` does: one bucket per expression that matched at least once,
   * holding its timestamps in the order they came.
   */
  method Bucket(matches: seq<(string, Option<Time>)>) returns (buckets: map<string, seq<Option<Time>>>)
    ensures buckets.Keys == Expressions(matches)
    ensures forall e :: e in buckets ==> buckets[e] == TimesFor(matches, e) && |buckets[e]| > 0
  {
    buckets := map[];
    for i := 0 to |matches|
      invariant BucketedUpTo(matches, i, buckets)
    {
      BucketStep(matches, i, buckets);
      var (expression, stamp) := matches[i];
      buckets := buckets[expression := (if expression in buckets then buckets[expression] else []) + [stamp]];
    }
    assert matches[..|matches|] == matches;
  }

  /** How often an expression occurs in a list of expressions. */
  function Occurrences(expressions: seq<string>, e: string): nat {
    if |expressions| == 0 then 0
    else Occurrences(expressions[..|expressions| - 1], e) + (if expressions[|expressions| - 1] == e then 1 else 0)
  }

  /** The timestamps of the lines an expression finds, in order. */
  function LinesFound(strptime: string -> Option<Time>, search: (string, string) -> bool,
                      lines: seq<string>, e: string): seq<Option<Time>>
  {
    if |lines| == 0 then []
    else
      var last := lines[|lines| - 1];
      LinesFound(strptime, search, lines[..|lines| - 1], e) + (if search(e, last) then [strptime(last)] else [])
  }

  lemma {:induction false} LineMatchesFor(strptime: string -> Option<Time>, search: (string, string) -> bool,
                                         line: string, expressions: seq<string>, e: string)
    requires Occurrences(expressions, e) == 1
    ensures TimesFor(LineMatches(strptime, search, line, expressions), e)
      == if search(e, line) then [strptime(line)] else []
  {
    var init := expressions[..|expressions| - 1];
    var last := expressions[|expressions| - 1];
    var tail := if search(last, line) then [(last, strptime(line))] else [];
    TimesForAppend(LineMatches(strptime, search, line, init), tail, e);
    assert TimesFor(tail, e) == if search(last, line) && last == e then [strptime(line)] else [] by {
      if search(last, line) {
        assert tail[..0] == [];
      }
    }
    if last == e {
      OccurrencesZero(init, e);
      LineMatchesWithout(strptime, search, line, init, e);
    } else {
      LineMatchesFor(strptime, search, line, init, e);
    }
  }

  lemma {:induction false} OccurrencesZero(expressions: seq<string>, e: string)
    requires Occurrences(expressions, e) == 0
    ensures forall i :: 0 <= i < |expressions| ==> expressions[i] != e
  {
    if |expressions| > 0 {
      OccurrencesZero(expressions[..|expressions| - 1], e);
    }
  }

  lemma {:induction false} LineMatchesWithout(strptime: string -> Option<Time>, search: (string, string) -> bool,
                                             line: string, expressions: seq<string>, e: string)
    requires forall i :: 0 <= i < |expressions| ==> expressions[i] != e
    ensures TimesFor(LineMatches(strptime, search, line, expressions), e) == []
  {
    if |expressions| > 0 {
      var init := expressions[..|expressions| - 1];
      var last := expressions[|expressions| - 1];
      var tail := if search(last, line) then [(last, strptime(line))] else [];
      LineMatchesWithout(strptime, search, line, init, e);
      TimesForAppend(LineMatches(strptime, search, line, init), tail, e);
      if search(last, line) {
        assert tail[..0] == [];
      }
    }
  }

  /**
   * Each declared expression's bucket holds the timestamp of every line it
   * finds, in order, whatever the other expressions match: a line matching
   * several expressions is counted under each of them.
   */
  lemma {:induction false} BucketHoldsEveryMatch(strptime: string -> Option<Time>, search: (string, string) -> bool,
                                                lines: seq<string>, expressions: seq<string>, e: string)
    requires Occurrences(expressions, e) == 1
    ensures TimesFor(RegexMatches(strptime, search, lines, expressions), e) == LinesFound(strptime, search, lines, e)
  {
    if |lines| > 0 {
      var init := lines[..|lines| - 1];
      var last := lines[|lines| - 1];
      BucketHoldsEveryMatch(strptime, search, init, expressions, e);
      TimesForAppend(RegexMatches(strptime, search, init, expressions),
                     LineMatches(strptime, search, last, expressions), e);
      LineMatchesFor(strptime, search, last, expressions, e);
    }
  }

  // ---------------------------------------------------------------------
  // Counting and sorting: zip(*sorted(Counter(times).items()))
  // ---------------------------------------------------------------------

  /** A series of distinct timestamps with their counts. */
  type Series = seq<(Time, nat)>

  predicate Ascending(series: Series) {
    forall i, j :: 0 <= i < j < |series| ==> series[i].0 < series[j].0
  }

  predicate Positive(series: Series) {
    forall i :: 0 <= i < |series| ==> series[i].1 >= 1
  }

  /** The count a series gives a timestamp; 0 when it is absent. */
  function CountOf(series: Series, t: Time): nat {
    if |series| == 0 then 0
    else if series[0].0 == t then series[0].1
    else CountOf(series[1..], t)
  }

  /** How often a timestamp occurs. */
  function Count(times: seq<Time>, t: Time): nat {
    if |times| == 0 then 0
    else Count(times[..|times| - 1], t) + (if times[|times| - 1] == t then 1 else 0)
  }

  /** The sum of the counts of a series. */
  function Total(series: Series): nat {
    if |series| == 0 then 0 else series[0].1 + Total(series[1..])
  }

  /** One more event at `t`: its count goes up by one, or it joins the series in order. */
  function Insert(series: Series, t: Time): Series {
    if |series| == 0 then [(t, 1)]
    else if series[0].0 == t then [(t, series[0].1 + 1)] + series[1..]
    else if t < series[0].0 then [(t, 1)] + series
    else [series[0]] + Insert(series[1..], t)
  }

  /** The series of a list of timestamps: distinct timestamps, ascending, each with its number of occurrences. */
  function Histogram(times: seq<Time>): Series {
    if |times| == 0 then []
    else Insert(Histogram(times[..|times| - 1]), times[|times| - 1])
  }

  lemma {:induction false} CountOfBelow(series: Series, t: Time)
    requires Ascending(series)
    requires |series| == 0 || t < series[0].0
    ensures CountOf(series, t) == 0
  {
    if |series| > 0 {
      CountOfBelow(series[1..], t);
    }
  }

  lemma {:induction false} InsertOrdered(series: Series, t: Time)
    requires Ascending(series) && Positive(series)
    ensures var r := Insert(series, t);
      && Ascending(r) && Positive(r)
      && |r| > 0 && (r[0].0 == t || (|series| > 0 && r[0].0 == series[0].0))
  {
    if |series| > 0 && series[0].0 != t && t > series[0].0 {
      InsertOrdered(series[1..], t);
      var r := Insert(series, t);
      assert r[1..] == Insert(series[1..], t);
    }
  }

  lemma {:induction false} InsertCounts(series: Series, t: Time)
    requires Ascending(series)
    ensures forall x :: CountOf(Insert(series, t), x) == CountOf(series, x) + (if x == t then 1 else 0)
    ensures Total(Insert(series, t)) == Total(series) + 1
  {
    if |series| > 0 && series[0].0 != t {
      if t < series[0].0 {
        CountOfBelow(series, t);
      } else {
        InsertCounts(series[1..], t);
      }
    }
  }

  /**
   * The histogram of the timestamps is an ascending series of distinct
   * timestamps, each counted at least once and exactly as often as it
   * occurs; its counts add up to the number of timestamps.
   */
  lemma {:induction false} HistogramCounts(times: seq<Time>)
    ensures var h := Histogram(times);
      && Ascending(h) && Positive(h)
      && (forall t :: CountOf(h, t) == Count(times, t))
      && Total(h) == |times|
  {
    if |times| > 0 {
      HistogramCounts(times[..|times| - 1]);
      InsertOrdered(Histogram(times[..|times| - 1]), times[|times| - 1]);
      InsertCounts(Histogram(times[..|times| - 1]), times[|times| - 1]);
    }
  }

  lemma AscendingTail(series: Series)
    requires Ascending(series) && |series| > 0
    ensures Ascending(series[1..]) && Positive(series) ==> Positive(series[1..])
    ensures |series| > 1 ==> series[0].0 < series[1..][0].0
  {
  }

  /** A timestamp counted by an ascending series is no earlier than its first entry. */
  lemma {:induction false} CountedNotBeforeFirst(series: Series, t: Time)
    requires Ascending(series) && CountOf(series, t) >= 1
    ensures |series| > 0 && series[0].0 <= t
  {
    if series[0].0 != t {
      AscendingTail(series);
      CountedNotBeforeFirst(series[1..], t);
    }
  }

  /** A series is determined by the count it gives each timestamp. */
  lemma {:induction false} SeriesDeterminedByCounts(a: Series, b: Series)
    requires Ascending(a) && Positive(a) && Ascending(b) && Positive(b)
    requires forall t :: CountOf(a, t) == CountOf(b, t)
    ensures a == b
    decreases |a|
  {
    if |a| > 0 {
      assert CountOf(b, a[0].0) == CountOf(a, a[0].0) >= 1;
      CountedNotBeforeFirst(b, a[0].0);
    }
    if |b| > 0 {
      assert CountOf(a, b[0].0) == CountOf(b, b[0].0) >= 1;
      CountedNotBeforeFirst(a, b[0].0);
    }
    if |a| > 0 {
      assert a[0] == b[0] by {
        assert CountOf(a, a[0].0) == CountOf(b, a[0].0);
      }
      AscendingTail(a);
      AscendingTail(b);
      forall t ensures CountOf(a[1..], t) == CountOf(b[1..], t) {
        if t == a[0].0 {
          CountOfBelow(a[1..], t);
          CountOfBelow(b[1..], t);
        } else {
          assert CountOf(a, t) == CountOf(b, t);
        }
      }
      SeriesDeterminedByCounts(a[1..], b[1..]);
    }
  }

  /** The timestamps that parsed, in order. */
  function Parsed(stamps: seq<Option<Time>>): (times: seq<Time>)
    ensures |times| <= |stamps|
  {
    if |stamps| == 0 then []
    else
      var last := stamps[|stamps| - 1];
      Parsed(stamps[..|stamps| - 1]) + (if last.Some? then [last.value] else [])
  }

  lemma CountOfAt(series: Series, i: nat)
    requires Ascending(series) && i < |series|
    ensures CountOf(series, series[i].0) == series[i].1
  {
    if i > 0 {
      CountOfAt(series[1..], i - 1);
    }
  }

  lemma {:induction false} CountOfAbsent(series: Series, t: Time)
    requires forall i :: 0 <= i < |series| ==> series[i].0 != t
    ensures CountOf(series, t) == 0
  {
    if |series| > 0 {
      CountOfAbsent(series[1..], t);
    }
  }

  /** The earliest of a non-empty list of timestamps. */
  method Earliest(times: seq<Time>) returns (earliest: Time)
    requires |times| > 0
    ensures earliest in times && forall t :: t in times ==> earliest <= t
  {
    earliest := times[0];
    for i := 1 to |times|
      invariant earliest in times
      invariant forall j :: 0 <= j < i ==> earliest <= times[j]
    {
      if times[i] < earliest {
        earliest := times[i];
      }
    }
  }

  /** The list without any occurrence of `t`. */
  function Without(times: seq<Time>, t: Time): (rest: seq<Time>)
    ensures forall x :: x in rest <==> x in times && x != t
    ensures |rest| <= |times| && (t in times ==> |rest| < |times|)
  {
    if |times| == 0 then []
    else if times[0] == t then Without(times[1..], t)
    else [times[0]] + Without(times[1..], t)
  }

  lemma {:induction false} CountSnoc(times: seq<Time>, x: Time)
    ensures forall t :: Count(times + [x], t) == Count(times, t) + (if x == t then 1 else 0)
  {
    assert (times + [x])[..|times|] == times;
  }

  lemma {:induction false} ParsedSnoc(stamps: seq<Option<Time>>, i: nat)
    requires i < |stamps|
    ensures Parsed(stamps[..i + 1]) == Parsed(stamps[..i]) + (if stamps[i].Some? then [stamps[i].value] else [])
  {
    assert stamps[..i + 1][..i] == stamps[..i];
  }

  lemma {:induction false} CountPositive(times: seq<Time>, t: Time)
    ensures Count(times, t) > 0 <==> t in times
  {
    if |times| > 0 {
      CountPositive(times[..|times| - 1], t);
      assert times == times[..|times| - 1] + [times[|times| - 1]];
    }
  }

  /**
   * `Counter` over the timestamps, with the lines whose timestamp did not
   * parse left out: each parsed timestamp with its number of occurrences.
   */
  method CountTimes(stamps: seq<Option<Time>>) returns (counts: map<Time, nat>)
    ensures forall t :: t in counts <==> Count(Parsed(stamps), t) > 0
    ensures forall t :: t in counts ==> counts[t] == Count(Parsed(stamps), t)
  {
    counts := map[];
    for i := 0 to |stamps|
      invariant forall t :: t in counts <==> Count(Parsed(stamps[..i]), t) > 0
      invariant forall t :: t in counts ==> counts[t] == Count(Parsed(stamps[..i]), t)
    {
      ParsedSnoc(stamps, i);
      if stamps[i].Some? {
        var t := stamps[i].value;
        CountSnoc(Parsed(stamps[..i]), t);
        assert Parsed(stamps[..i + 1]) == Parsed(stamps[..i]) + [t];
        counts := counts[t := (if t in counts then counts[t] else 0) + 1];
      } else {
        assert Parsed(stamps[..i + 1]) == Parsed(stamps[..i]) + [];
        assert Parsed(stamps[..i]) + [] == Parsed(stamps[..i]);
      }
    }
    assert stamps[..|stamps|] == stamps;
  }

  /**
   * Midway through the sort: `series` holds, ascending, the entries of the
   * keys no longer in `rest`, all earlier than the keys still in `rest`.
   */
  predicate SortedSoFar(counts: map<Time, nat>, series: Series, rest: seq<Time>) {
    && (forall t :: t in rest ==> t in counts)
    && Ascending(series)
    && (forall i :: 0 <= i < |series| ==> series[i].0 in counts && series[i].1 == counts[series[i].0])
    && (forall i, t :: 0 <= i < |series| && t in rest ==> series[i].0 < t)
    && (forall t :: t in counts && t !in rest ==> exists i :: 0 <= i < |series| && series[i].0 == t)
  }

  lemma SortStep(counts: map<Time, nat>, series: Series, rest: seq<Time>, t: Time)
    requires SortedSoFar(counts, series, rest)
    requires t in rest && forall x :: x in rest ==> t <= x
    ensures SortedSoFar(counts, series + [(t, counts[t])], Without(rest, t))
  {
    var next := series + [(t, counts[t])];
    forall x | x in counts && x !in Without(rest, t)
      ensures exists i :: 0 <= i < |next| && next[i].0 == x
    {
      if x == t {
        assert next[|series|].0 == x;
      } else {
        var i :| 0 <= i < |series| && series[i].0 == x;
        assert next[i].0 == x;
      }
    }
  }

  /**
   * `sorted(counts.items())`: the entries of the count map ordered by
   * timestamp; `keys` lists (possibly repeatedly) exactly the map's keys.
   */
  method SortCounts(counts: map<Time, nat>, keys: seq<Time>) returns (series: Series)
    requires forall t :: t in keys <==> t in counts
    ensures Ascending(series)
    ensures forall i :: 0 <= i < |series| ==> series[i].0 in counts && series[i].1 == counts[series[i].0]
    ensures forall t :: t in counts ==> exists i :: 0 <= i < |series| && series[i].0 == t
  {
    series := [];
    var rest := keys;
    while |rest| > 0
      invariant SortedSoFar(counts, series, rest)
      decreases |rest|
    {
      var t := Earliest(rest);
      SortStep(counts, series, rest, t);
      series := series + [(t, counts[t])];
      rest := Without(rest, t);
    }
  }

  /**
   * `sorted(Counter(times).items())` with the lines whose timestamp did not
   * parse left out: the ascending series of the parsed timestamps, each
   * with its number of events, the counts adding up to the number of
   * parsed lines.
   */
  method CountSorted(stamps: seq<Option<Time>>) returns (series: Series)
    ensures series == Histogram(Parsed(stamps))
    ensures Ascending(series) && Positive(series)
    ensures Total(series) == |Parsed(stamps)|
  {
    var times := Parsed(stamps);
    var counts := CountTimes(stamps);
    forall t ensures t in times <==> t in counts {
      CountPositive(times, t);
    }
    series := SortCounts(counts, times);
    forall t ensures CountOf(series, t) == Count(times, t) {
      if t in counts {
        var i :| 0 <= i < |series| && series[i].0 == t;
        CountOfAt(series, i);
      } else {
        CountOfAbsent(series, t);
      }
    }
    HistogramCounts(times);
    SeriesDeterminedByCounts(series, Histogram(times));
  }

  // ---------------------------------------------------------------------
  // The aggregation as the source writes it
  // ---------------------------------------------------------------------

  /** What `zip(*sorted(Counter(times).items()))` raises. */
  datatype AggregateError =
    | NothingToPlot   // no timestamps: unpacking `zip()` raises ValueError
    | Unorderable     // `None` sorted against a datetime raises TypeError

  /**
   * The aggregation of `main` as written: failed parses stay in the
   * bucket as `None`, which counts like any other key and then has to be
   * ordered against the real timestamps.
   */
  function AggregateAsWritten(stamps: seq<Option<Time>>): (r: Result<seq<(Option<Time>, nat)>, AggregateError>)
    ensures r == Failure(NothingToPlot) <==> |stamps| == 0
    ensures r == Failure(Unorderable) <==>
      (exists i :: 0 <= i < |stamps| && stamps[i].None?) && (exists j :: 0 <= j < |stamps| && stamps[j].Some?)
  {
    ParsedDropsNone(stamps);
    ParsedEmpty(stamps);
    var times := Parsed(stamps);
    if |stamps| == 0 then Failure(NothingToPlot)
    else if |times| < |stamps| && |times| > 0 then Failure(Unorderable)
    else if |times| < |stamps| then Success([(None, |stamps|)])
    else
      var h := Histogram(times);
      Success(seq(|h|, i requires 0 <= i < |h| => (Some(h[i].0), h[i].1)))
  }

  /** Parsing drops exactly the `None`s. */
  lemma {:induction false} ParsedDropsNone(stamps: seq<Option<Time>>)
    ensures |Parsed(stamps)| == |stamps| <==> forall i :: 0 <= i < |stamps| ==> stamps[i].Some?
  {
    if |stamps| > 0 {
      ParsedDropsNone(stamps[..|stamps| - 1]);
    }
  }

  /** Parsing leaves nothing exactly when no line parsed. */
  lemma {:induction false} ParsedEmpty(stamps: seq<Option<Time>>)
    ensures |Parsed(stamps)| == 0 <==> forall i :: 0 <= i < |stamps| ==> stamps[i].None?
  {
    if |stamps| > 0 {
      ParsedEmpty(stamps[..|stamps| - 1]);
    }
  }

  /**
   * One unparsable line among parsable ones is enough for the aggregation
   * as written to fail, where the corrected aggregation counts the
   * parsable line.
   */
  lemma FailedParseAbortsAggregation(t: Time)
    ensures AggregateAsWritten([Some(t), None]) == Failure(Unorderable)
    ensures Histogram(Parsed([Some(t), None])) == [(t, 1)]
  {
    var stamps := [Some(t), None];
    assert stamps[..1] == [Some(t)];
    assert stamps[..1][..0] == [];
    assert Parsed(stamps) == [t];
  }

  /** As written, the aggregation fails whenever the bucket mixes parsed and unparsed lines. */
  lemma MixedBucketFails(stamps: seq<Option<Time>>, i: nat, j: nat)
    requires i < |stamps| && j < |stamps| && stamps[i].None? && stamps[j].Some?
    ensures AggregateAsWritten(stamps) == Failure(Unorderable)
  {
    ParsedDropsNone(stamps);
    ParsedKeeps(stamps, j);
  }

  lemma {:induction false} ParsedKeeps(stamps: seq<Option<Time>>, j: nat)
    requires j < |stamps| && stamps[j].Some?
    ensures |Parsed(stamps)| > 0
  {
    if j < |stamps| - 1 {
      ParsedKeeps(stamps[..|stamps| - 1], j);
    }
  }
}
