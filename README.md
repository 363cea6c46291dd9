# timeplots, modelled in Dafny

timeplots turns line-oriented text into time series for plotting. This
project models the three text-to-series pipelines at its core and proves
what they promise:

- **Periodic-dump counter pipeline** (`periodic_dump.dfy`, module
  `PeriodicDump`):
  - the gap check over a timeline;
  - cutting a stream of lines into timed dumps, keeping the network ones;
  - the line-driven state machine that reads one dump into a
    `"<iface>: <counter>" → value` table;
  - the transposition of the dumps into one series per counter;
  - the 32-bit wrap-around deltas;
  - the renaming of `packets`/`bytes` counters into rates.
- **Event-log front end** (`logplot.dfy`, module `LogPlot`):
  - the interval argument;
  - routing lines to timestamps and to the expressions they match;
  - the per-expression buckets;
  - the count-and-sort aggregation into an ascending `(time, count)` series.
- **pps line parser** (`pps_plotter.dfy`, module `PpsPlotter`):
  - the timestamp taken from fixed words of a line;
  - the first number of a text;
  - the split of a line at its ` TX `/` RX ` markers;
  - the datapoints of a file.

`text.dfy` (module `Text`) models the parts of Python's `str` these pipelines
use: `split()`, `" ".join`, `startswith`, `endswith`, `in`, `replace`,
`isnumeric` and `int`. `wrappers.dfy` holds `Option` and `Result`.

Timestamps are whole seconds (`int`). The time parsers (`datetime.strptime`
with the dump, pps and log formats), the `name: [knet…]` regular expression
and the user's `-e` regular expressions are function-typed parameters. A
parse failure (`ValueError`) is `None`, and a failed `findall` is `None`.
Python exceptions that end a run are `Failure` values of a `Result`.

Classification by regular expression has no early exit. `match_regex`
(`timeplots/logplot.py:46-51`) yields a line once for every expression
found in it, so a line that matches several expressions is counted under
each of them (`LogPlot.MatchRegex`, `LogPlot.BucketHoldsEveryMatch`).

## Model

| member | source | states |
|---|---|---|
| PeriodicDump.TimeframeIsDiscontiguous | timeplots/service_core_periodic_dump.py:147-158 | true exactly when some adjacent pair of timestamps is more than 301 seconds (`max_gap + 1`) apart; the `None` of a short timeline reads as false |
| PeriodicDump.ShortOrNonIncreasingIsContiguous | timeplots/service_core_periodic_dump.py:150-158 | fewer than two timestamps, or timestamps that never increase, never show a gap |
| PeriodicDump.SegmentsConcat | timeplots/service_core_periodic_dump.py:167-174 | the pieces the header lines cut the stream into concatenate back to the stream: no line is lost, duplicated or reordered |
| PeriodicDump.SegmentsWellCut | timeplots/service_core_periodic_dump.py:169-174 | the first piece holds no header; every later piece starts with a `periodic dump at ` line and holds no other; a stream without headers is one piece |
| PeriodicDump.KeepNetworkDumpsFrom | timeplots/service_core_periodic_dump.py:170-172 | the kept dumps are no more than the pieces, each mentions `tx_packets`, and the k-th kept dump is a piece at position k or later |
| PeriodicDump.KeepNetworkDumpsInOrder | timeplots/service_core_periodic_dump.py:170-172 | the kept dumps are a subsequence of the pieces: each is the piece at its kept position, and those positions strictly increase |
| PeriodicDump.KeptPositionsMentionTx | timeplots/service_core_periodic_dump.py:170-172 | a piece is kept exactly when it mentions `tx_packets` |
| PeriodicDump.SplitDumps | timeplots/service_core_periodic_dump.py:161-174 | yields the pieces before the last header that mention `tx_packets`, in order; every yielded dump mentions `tx_packets` and every one after the first starts with a header |
| PeriodicDump.TrailingLinesNotYielded | timeplots/service_core_periodic_dump.py:168-174 | lines after the last header never change what is yielded, since nothing is flushed after the loop |
| PeriodicDump.CounterKeyIsLabelled | timeplots/service_core_periodic_dump.py:204 | every counter key is `<iface>: <name>`, so it contains `": "` |
| PeriodicDump.TimestampIsNotCounterKey | timeplots/service_core_periodic_dump.py:184-186 | the `timestamp` entry can never be confused with a counter key |
| PeriodicDump.EveryOther | timeplots/service_core_periodic_dump.py:201 | `details[::2]`: the words at even positions, ceil(n/2) of them |
| PeriodicDump.OddWords | timeplots/service_core_periodic_dump.py:205 | `details[1::2]`: the words at odd positions, floor(n/2) of them |
| PeriodicDump.ParseCounters | timeplots/service_core_periodic_dump.py:205-206 | succeeds exactly when every value word, stripped of its first and last character, is an integer, and then gives those integers in order; otherwise fails naming an offending word |
| PeriodicDump.Store | timeplots/service_core_periodic_dump.py:207-208 | the table gains exactly the first `min(#keys, #values)` keys; every other key keeps its value |
| PeriodicDump.StoreLastWins | timeplots/service_core_periodic_dump.py:207-208 | a key that is not repeated later among the stored pairs holds its own value |
| PeriodicDump.KindOfPrefixed | timeplots/service_core_periodic_dump.py:183-199 | the four line prefixes exclude one another, so a line starting with the mapping, interface or counter prefix is handled as that kind of line |
| PeriodicDump.ScanLine | timeplots/service_core_periodic_dump.py:182-209 | one step of the loop: it can fail only on a header or a counter line; on success the counter keys only grow, only a header changes the timestamp, and only a mapping line changes the mapping (the lemmas below give each kind of line) |
| PeriodicDump.GetDumpDetails | timeplots/service_core_periodic_dump.py:177-210 | the loop over the dump's lines computes the left fold of the per-line state machine (header, knet mapping, interface, counter line) |
| PeriodicDump.ScanKeepsCounterKeys | timeplots/service_core_periodic_dump.py:182-209 | the state machine only ever stores keys of counter shape |
| PeriodicDump.DumpCountersAreLabelled | timeplots/service_core_periodic_dump.py:199-208 | every counter of a read dump is labelled `<iface>: …`, and none is called `timestamp` |
| PeriodicDump.CounterLineNeedsIface | timeplots/service_core_periodic_dump.py:199 | a counter line read while no interface is current changes nothing |
| PeriodicDump.CounterLineUnderIface | timeplots/service_core_periodic_dump.py:199-209 | under a current interface a counter line is read as a counter line, whatever else it starts with |
| PeriodicDump.CounterLineKeys | timeplots/service_core_periodic_dump.py:200-209 | a counter line succeeds exactly when all its value words parse; it then adds the keys `<iface>: <name>` of its name words and no others, keeps the timestamp and mapping, and clears the current interface |
| PeriodicDump.CounterLineValues | timeplots/service_core_periodic_dump.py:205-208 | the k-th name gets the k-th parsed value unless the same key comes again later in the line |
| PeriodicDump.CounterLineDeselects | timeplots/service_core_periodic_dump.py:199-209 | whatever the state, a counter line that is read leaves no interface selected |
| PeriodicDump.ScanKeepsNoIface | timeplots/service_core_periodic_dump.py:194-199 | with no interface selected, lines that are not `iface name: knet` lines never select one |
| PeriodicDump.RepeatedCounterLineAddsNothing | timeplots/service_core_periodic_dump.py:199-209 | a later counter line adds nothing when no `iface name: knet` line comes between it and the previous counter line, whatever other lines do |
| PeriodicDump.KnetMappingLabelsIface | timeplots/service_core_periodic_dump.py:188-197 | an interface line `knetN` immediately after a `name: [knetN], …, port: [P],` line is labelled `knetN (P)` |
| PeriodicDump.MappedIfaceIsLabelled | timeplots/service_core_periodic_dump.py:194-198 | an interface line takes its label from whatever port the mapping holds for its knet when the line is read |
| PeriodicDump.ScanLinesAppend | timeplots/service_core_periodic_dump.py:182-209 | reading `a + b` is reading `a`, then `b` from the state `a` left; an error in `a` ends the dump |
| PeriodicDump.ScanKeepsIfaceMap | timeplots/service_core_periodic_dump.py:188-192 | only a `name: [knet` line changes the knet-to-port mapping; every other line leaves it as it was |
| PeriodicDump.ScanKeepsKnetEntry | timeplots/service_core_periodic_dump.py:188-192 | the port recorded for a knet survives every line except a mapping line for that same knet |
| PeriodicDump.EarlierMappingLabelsIface | timeplots/service_core_periodic_dump.py:188-197 | a mapping line labels a later interface line `knetN (P)` whatever lines sit between them, mappings of other knets included, as long as none maps the same knet again; the dump fails only if those lines do |
| PeriodicDump.UnmappedIfaceIsBareKnet | timeplots/service_core_periodic_dump.py:194-198 | an interface that no mapping names is labelled by its bare `knetN` |
| PeriodicDump.GetInterfacesDetails | timeplots/service_core_periodic_dump.py:213-224 | one series per counter key that occurs in some dump, holding that counter's values in dump order |
| PeriodicDump.ColumnLength | timeplots/service_core_periodic_dump.py:218-222 | a series is no longer than the number of dumps, and exactly as long when every dump has the counter |
| PeriodicDump.NoTimestampSeries | timeplots/service_core_periodic_dump.py:220-221 | no series is ever made for `timestamp` |
| PeriodicDump.Deltas | timeplots/service_core_periodic_dump.py:233-235 | one delta per adjacent pair: `n - 1` of them, none for fewer than two values |
| PeriodicDump.GetCounterDiffs | timeplots/service_core_periodic_dump.py:227-238 | keeps the key set; each key's list of deltas is one shorter than its values, or empty |
| PeriodicDump.DeltaWraps | timeplots/service_core_periodic_dump.py:234 | for 32-bit counters each delta lies in `[0, 2^32)` and `before + delta` is `after` modulo `2^32` |
| PeriodicDump.ReplayDeltas | timeplots/service_core_periodic_dump.py:233-235 | replaying the deltas from the first reading gives back every 32-bit reading |
| PeriodicDump.DeltasInRange | timeplots/service_core_periodic_dump.py:233-235 | the deltas of 32-bit readings are 32-bit values |
| PeriodicDump.RateValues | timeplots/service_core_periodic_dump.py:249 | a converted list is exactly as long as the original one |
| PeriodicDump.ConvertCounters | timeplots/service_core_periodic_dump.py:244-253 | the keys are the renamed keys; each holds the converted list of a key renamed to it, and exactly that list when only one key is renamed to it |
| PeriodicDump.ConvertPacketPerSecond | timeplots/service_core_periodic_dump.py:241-253 | the conversion with ` packets` keys renamed to `packets per second` and their values divided by 60 |
| PeriodicDump.ConvertBitsPerSecond | timeplots/service_core_periodic_dump.py:256-269 | the conversion with ` bytes` keys renamed to `bits per second` and their values divided by `60 // 8 = 7` |
| PeriodicDump.RateKeyRenamesSuffix | timeplots/service_core_periodic_dump.py:247-248 | a key ending in ` <unit>` ends in ` <rate>` once renamed |
| LogPlot.GetInterval | timeplots/logplot.py:54-65 | on success the unit map has at most one entry, a unit among seconds, minutes, hours and days with a non-negative magnitude, and an empty map goes with the `events` label (acceptance and the label are the lemmas below) |
| LogPlot.NoIntervalCountsEvents | timeplots/logplot.py:55-56 | no interval, or an empty one, gives `("events", {})` |
| LogPlot.IntervalAccepted | timeplots/logplot.py:57-61 | a non-empty interval is accepted exactly when it is all digits, or it ends in `s`, `m`, `h` or `d` after a non-empty run of digits; so a bare `m` is refused |
| LogPlot.NumericIntervalIsSeconds | timeplots/logplot.py:57 | an all-digit interval is that many seconds |
| LogPlot.IntervalRoundTrip | timeplots/logplot.py:54-65 | reading back `<n><unit>` gives `{unit: n}` and the label `events every <n> <unit>`, whose plural `s` is dropped exactly when `n` is 1 |
| LogPlot.MatchAll | timeplots/logplot.py:31-43 | one timestamp per line, in order; `None` where the parse fails |
| LogPlot.MatchRegex | timeplots/logplot.py:46-51 | for each line, one `(expression, timestamp)` per expression found in it, in declaration order |
| LogPlot.Bucket | timeplots/logplot.py:82-84 | one bucket per expression that matched, holding its timestamps in arrival order, never empty |
| LogPlot.BucketHoldsEveryMatch | timeplots/logplot.py:46-51 | a declared expression's bucket holds the timestamp of every line it finds, whatever the other expressions match: no early exit |
| LogPlot.HistogramCounts | timeplots/logplot.py:86-87 | the series of a list of timestamps is strictly ascending, counts each timestamp at least once and exactly as often as it occurs, and its counts add up to the list's length |
| LogPlot.SeriesDeterminedByCounts | timeplots/logplot.py:87 | two ascending series with positive counts that count every timestamp alike are equal, so sorting the counts has one answer |
| LogPlot.CountTimes | timeplots/logplot.py:86 | corrected (see ## Findings): the count table holds exactly the parsed timestamps, each with its number of occurrences; failed parses are dropped rather than counted under `None` |
| LogPlot.SortCounts | timeplots/logplot.py:87 | the table's entries, strictly ascending by timestamp, each with its count, none missing |
| LogPlot.CountSorted | timeplots/logplot.py:86-87 | corrected (see ## Findings): the series of the parsed timestamps, failed parses dropped: strictly ascending, positive counts that add up to the number of parsed lines |
| LogPlot.AggregateAsWritten | timeplots/logplot.py:86-92 | as written: fails with nothing to plot exactly when the bucket is empty, and with `TypeError` exactly when it mixes parsed and unparsed lines |
| LogPlot.MixedBucketFails | timeplots/logplot.py:86-87 | as written, a bucket holding both a failed and a successful parse cannot be sorted |
| LogPlot.FailedParseAbortsAggregation | timeplots/logplot.py:91-92 | one unparsable line next to a parsable one stops the aggregation as written, where the corrected one counts the parsable line once |
| PpsPlotter.GetTimestamp | timeplots/pps_plotter.py:84-98 | a timestamp needs at least six words in the line |
| PpsPlotter.TimestampWords | timeplots/pps_plotter.py:88-94 | for any line of at least six words, however spaced, the time parser is handed words 1, 2, 3 and 5 joined by single spaces |
| PpsPlotter.ShortLineHasNoTimestamp | timeplots/pps_plotter.py:87-91 | any line of fewer than six words, however spaced, has no timestamp |
| PpsPlotter.FifthWordIgnored | timeplots/pps_plotter.py:89 | the word at index 4 plays no part in the timestamp |
| PpsPlotter.FirstNumeric | timeplots/pps_plotter.py:103-106 | `None` exactly when no word is all digits; otherwise the value of the first such word |
| PpsPlotter.GetNumeric | timeplots/pps_plotter.py:101-106 | `None` exactly when no word of the text is all digits; otherwise the value of the first such word |
| PpsPlotter.NumericRoundTrip | timeplots/pps_plotter.py:101-106 | a number written after words that are not all digits reads back as that number |
| PpsPlotter.TrxSplit | timeplots/pps_plotter.py:112-121 | `re.split(" ?[TR]X ?", line)` gives at least one part (its shape on TX/RX lines and on lines without markers is in the lemmas below) |
| PpsPlotter.Pieces | timeplots/pps_plotter.py:112 | `re.split` always gives at least one piece |
| PpsPlotter.PiecesWithoutX | timeplots/pps_plotter.py:112 | text with no `X` cannot hold a marker, so it stays in the current piece to the end |
| PpsPlotter.PiecesAtMarker | timeplots/pps_plotter.py:112 | a ` TX ` or ` RX ` marker after text with no `X` ends the current piece there and starts the next one after it |
| PpsPlotter.SplitWithoutX | timeplots/pps_plotter.py:112-121 | a line with no `X` is not split at all, so it cannot be unpacked into three parts |
| PpsPlotter.TrxSplitRoundTrip | timeplots/pps_plotter.py:112-121 | a line `<front> TX <tx> RX <rx>` with no other `X` splits into exactly its front, TX and RX parts |
| PpsPlotter.FirstMeasure | timeplots/pps_plotter.py:113-123 | `None` exactly when no measurement occurs in the text; otherwise the first of `pkts/s`, `kB/s`, `PktLen` that occurs |
| PpsPlotter.GetDatapoint | timeplots/pps_plotter.py:117-127 | no datapoint exactly when the line has no timestamp; a failure only on a timestamped line, `NotThreeParts` exactly when the split does not give three parts; a datapoint carries the line's timestamp, a measurement named in the TX part, and the first number of each part |
| PpsPlotter.DatapointOfTrxLine | timeplots/pps_plotter.py:115-127 | a timestamped `TX`/`RX` line yields its first measurement, its timestamp and the first number of each part, or fails when its TX part names no measurement |
| PpsPlotter.LineWithoutMarkersFails | timeplots/pps_plotter.py:121 | a timestamped line without TX and RX markers stops the parse |
| PpsPlotter.GetDatapoints | timeplots/pps_plotter.py:109-127 | at most one datapoint per line |
| PpsPlotter.DatapointsOfTimestampedLines | timeplots/pps_plotter.py:115-127 | when nothing fails, exactly one datapoint per timestamped line, in input order; lines without a timestamp are skipped |
| PpsPlotter.DatapointsFailOnBadLine | timeplots/pps_plotter.py:115-127 | the parse fails exactly when some line fails |
| PpsPlotter.DatapointsFailAtFirstBadLine | timeplots/pps_plotter.py:115-127 | a failed parse reports the error of the first failing line, every line before it having succeeded |
| Text.Split | timeplots/service_core_periodic_dump.py:200 | `split()` gives non-empty words free of whitespace |
| Text.SplitJoin | timeplots/pps_plotter.py:88-89 | splitting words joined by single spaces gives the words back |
| Text.ReplaceAround | timeplots/service_core_periodic_dump.py:248 | `replace` works separately on either side of a character the pattern does not contain |
| Text.ParseInt | timeplots/service_core_periodic_dump.py:206 | `int()` accepts an optional sign followed by ASCII digits, and gives their value |
| Text.ParseIntShowNat | timeplots/service_core_periodic_dump.py:206 | `int()` reads back the decimal notation of a number and of its negation |
| Text.DigitsValueShowNat | timeplots/pps_plotter.py:106 | the value of a number's decimal notation is that number |

## Left out

- Plotting, page assembly, the command line, file reading and decompression are not part of this model. That covers every `main`, the file-finding helpers, bokeh and docopt.
- `datetime.strptime`, `LogTime.strptime` and regular-expression matching are parameters, not definitions. Compiling a malformed `-e` expression, which raises in `re.compile`, is not modelled.
- `missing_time_data` and `LogTime` are not part of this model.
- `get_timestamp` in `logplot.py` is modelled by its result only: the parse result, or `None` on `ValueError`. Its diagnostics on standard error are output only.
- `get_dump_details` works on a dump's lines. The model takes the list of lines directly, in place of `"\n".join` in `split_dumps` followed by `splitlines`. That round trip is not exact: `splitlines` drops a trailing empty line, and it also splits at line ends other than `\n`. Dropping empty lines changes nothing, because `get_dump_details` ignores a line that starts with none of its prefixes. Other line ends inside a line are not modelled.
- PeriodicDump.ConvertCounters: when two keys are renamed to the same key, Python keeps the one that comes last in dictionary order. The contract only says that the surviving list belongs to one of them, because dictionary insertion order is not modelled.
- PeriodicDump.ConvertPacketPerSecond: values are exact rationals; floating-point rounding of `v / 60` is not modelled.
- PeriodicDump.ConvertBitsPerSecond: values are exact rationals; floating-point rounding of `v / 7` is not modelled.
- Text.ParseInt: `int()` is modelled as an optional sign and ASCII digits. Python also accepts surrounding whitespace, `_` separators and non-ASCII decimal digits; the model refuses them.
- Text.IsNumeric: `isnumeric` is modelled as ASCII decimal digits only; other Unicode numerals are not.
- Counter values and deltas are unbounded integers. Wrap-around is modelled where the source writes it, in `get_counter_diffs`.
- LogPlot.CountSorted: when no timestamp parses, it returns an empty series. The unpacking of an empty series by the caller, which raises, belongs to `main` and is not modelled.
- LogPlot.Bucket: the buckets are a `map`, which loses the insertion order of the `defaultdict(deque)`. `main` walks that order to add one plot line per expression in order of first match (`timeplots/logplot.py:85`); the model keeps each bucket's contents and arrival order, not the order of the buckets.
- The Python generators (`split_dumps`, `match_all`, `match_regex`, `get_datapoints`) are modelled as computing their whole output. Laziness, including the datapoints yielded before a failing line, is not modelled.

## Findings

| source | as written | input that shows it | evidently intended | confidence | as-written member | corrected member |
|---|---|---|---|---|---|---|
| timeplots/logplot.py:86-92 | a failed parse becomes `None` in the bucket; `Counter` counts it as a key and `sorted` must then order `None` against datetimes, which raises `TypeError` | a bucket or log with one parsable and one unparsable line, `[Some(t), None]` (`LogPlot.FailedParseAbortsAggregation`, `LogPlot.MixedBucketFails`) | lines whose timestamp does not parse are dropped, and the rest are counted and sorted | high; not executed | LogPlot.AggregateAsWritten | LogPlot.CountSorted |
