/**
 * The counter pipeline for service-core periodic dumps
 * (timeplots/service_core_periodic_dump.py): the dump stream is cut into
 * one chunk per dump, each chunk's interface counters are read into a
 * dictionary, the dictionaries are transposed into one series per counter,
 * raw 32-bit counters become per-interval deltas, and packet and byte
 * counters are renamed to rates.
 */
module PeriodicDump {
  import opened Wrappers
  import opened Text

  /** A timestamp, in whole seconds. */
  type Time = int

  const DumpHeader := "periodic dump at "
  const KnetMapPrefix := "name: [knet"
  const IfacePrefix := "iface name: knet"
  const CounterPrefix := "rx_packets:"
  /** Largest gap, in seconds, tolerated between two consecutive dumps (one more second is allowed). */
  const MaxGap := 300
  /** 2 ** 32: the device counters are 32 bits wide and wrap around. */
  const CounterModulus := 0x1_0000_0000

  predicate IsDumpHeader(line: string) {
    StartsWith(line, DumpHeader)
  }

  // ---------------------------------------------------------------------
  // timeframe_is_discontiguous
  // ---------------------------------------------------------------------

  /** Some pair of consecutive timestamps lies more than `MaxGap + 1` seconds apart. */
  predicate HasGap(timestamps: seq<Time>) {
    exists i :: 0 < i < |timestamps| && timestamps[i] - timestamps[i - 1] > MaxGap + 1
  }

  /** Reports whether the dumps leave a gap in the timeline; `None` (falsy) is `false` here. */
  method TimeframeIsDiscontiguous(timestamps: seq<Time>) returns (discontiguous: bool)
    ensures discontiguous <==> HasGap(timestamps)
  {
    var previous: Option<Time> := None;
    for i := 0 to |timestamps|
      invariant previous == if i == 0 then None else Some(timestamps[i - 1])
      invariant forall j :: 0 < j < i ==> timestamps[j] - timestamps[j - 1] <= MaxGap + 1
    {
      var ts := timestamps[i];
      if previous.None? {
        previous := Some(ts);
        continue;
      }
      if ts - previous.value > MaxGap + 1 {
        return true;
      }
      previous := Some(ts);
    }
    return false;
  }

  /** Fewer than two dumps, or timestamps that never move forward, are never discontiguous. */
  lemma ShortOrNonIncreasingIsContiguous(timestamps: seq<Time>)
    requires |timestamps| < 2 || forall i :: 0 < i < |timestamps| ==> timestamps[i] <= timestamps[i - 1]
    ensures !HasGap(timestamps)
  {
  }

  // ---------------------------------------------------------------------
  // split_dumps
  // ---------------------------------------------------------------------

  /**
   * The stream cut before every dump header: first the lines ahead of the
   * first header, then one segment per header running up to the next header.
   */
  function Segments(lines: seq<string>): (segments: seq<seq<string>>)
    ensures |segments| > 0
  {
    if |lines| == 0 then [[]]
    else
      var before := Segments(lines[..|lines| - 1]);
      var line := lines[|lines| - 1];
      if IsDumpHeader(line) then before + [[line]]
      else before[..|before| - 1] + [before[|before| - 1] + [line]]
  }

  function Concat(segments: seq<seq<string>>): seq<string> {
    if |segments| == 0 then []
    else Concat(segments[..|segments| - 1]) + segments[|segments| - 1]
  }

  predicate NoHeader(lines: seq<string>) {
    forall i :: 0 <= i < |lines| ==> !IsDumpHeader(lines[i])
  }

  /**
   * How a cut stream looks: the first segment holds no header, and every
   * later one is one header line followed by header-free lines.
   */
  predicate WellCut(segments: seq<seq<string>>) {
    && |segments| > 0
    && NoHeader(segments[0])
    && forall k :: 0 < k < |segments| ==>
         |segments[k]| > 0 && IsDumpHeader(segments[k][0]) && NoHeader(segments[k][1..])
  }

  /** Cutting the stream loses nothing and puts nothing out of order. */
  lemma {:induction false} SegmentsConcat(lines: seq<string>)
    ensures Concat(Segments(lines)) == lines
  {
    if |lines| > 0 {
      var init := lines[..|lines| - 1];
      var line := lines[|lines| - 1];
      var before := Segments(init);
      SegmentsConcat(init);
      assert lines == init + [line];
      if !IsDumpHeader(line) {
        var m := |before|;
        var after := before[..m - 1] + [before[m - 1] + [line]];
        assert after[..|after| - 1] == before[..m - 1];
        assert before[..m - 1] == before[..|before| - 1];
      } else {
        assert (before + [[line]])[..|before|] == before;
      }
    }
  }

  /** A header line opens a segment of its own. */
  lemma CutAtHeader(segments: seq<seq<string>>, line: string)
    requires WellCut(segments) && IsDumpHeader(line)
    ensures WellCut(segments + [[line]])
  {
    var after := segments + [[line]];
    assert after[0] == segments[0];
    assert forall k :: 0 < k < |segments| ==> after[k] == segments[k];
    assert [line][1..] == [];
  }

  /** Any other line joins the last segment. */
  lemma CutAfterHeader(segments: seq<seq<string>>, line: string)
    requires WellCut(segments) && !IsDumpHeader(line)
    ensures var m := |segments|;
      WellCut(segments[..m - 1] + [segments[m - 1] + [line]])
  {
    var m := |segments|;
    var after := segments[..m - 1] + [segments[m - 1] + [line]];
    assert after[m - 1] == segments[m - 1] + [line];
    if m > 1 {
      assert after[m - 1][1..] == segments[m - 1][1..] + [line];
    }
    assert forall k :: 0 <= k < m - 1 ==> after[k] == segments[k];
  }

  /** The segments are cut at the headers; a stream without headers is a single segment. */
  lemma {:induction false} SegmentsWellCut(lines: seq<string>)
    ensures WellCut(Segments(lines))
    ensures NoHeader(lines) ==> |Segments(lines)| == 1
  {
    if |lines| > 0 {
      var init := lines[..|lines| - 1];
      var line := lines[|lines| - 1];
      SegmentsWellCut(init);
      assert NoHeader(lines) ==> NoHeader(init);
      if IsDumpHeader(line) {
        CutAtHeader(Segments(init), line);
      } else {
        CutAfterHeader(Segments(init), line);
      }
    }
  }

  /** Python's `"tx_packets" in "\n".join(chunk)`: the chunk reports network counters. */
  predicate MentionsTx(chunk: seq<string>) {
    Contains(Join(chunk, "\n"), "tx_packets")
  }

  /** The segments that mention `tx_packets`, in order. */
  function KeepNetworkDumps(segments: seq<seq<string>>): seq<seq<string>> {
    if |segments| == 0 then []
    else
      var last := segments[|segments| - 1];
      KeepNetworkDumps(segments[..|segments| - 1]) + (if MentionsTx(last) then [last] else [])
  }

  /** Every kept segment mentions `tx_packets` and is a segment from at least as far along. */
  lemma {:induction false} KeepNetworkDumpsFrom(segments: seq<seq<string>>)
    ensures |KeepNetworkDumps(segments)| <= |segments|
    ensures forall k :: 0 <= k < |KeepNetworkDumps(segments)| ==>
      MentionsTx(KeepNetworkDumps(segments)[k]) &&
      exists j :: k <= j < |segments| && KeepNetworkDumps(segments)[k] == segments[j]
  {
    if |segments| > 0 {
      var init := segments[..|segments| - 1];
      KeepNetworkDumpsFrom(init);
      var kept := KeepNetworkDumps(segments);
      forall k | 0 <= k < |kept|
        ensures MentionsTx(kept[k]) && exists j :: k <= j < |segments| && kept[k] == segments[j]
      {
        if k < |KeepNetworkDumps(init)| {
          var j :| k <= j < |init| && KeepNetworkDumps(init)[k] == init[j];
          assert kept[k] == segments[j];
        } else {
          assert kept[k] == segments[|segments| - 1];
        }
      }
    }
  }

  /** The positions of the segments that mention `tx_packets`, in order. */
  function KeptPositions(segments: seq<seq<string>>): seq<nat> {
    if |segments| == 0 then []
    else KeptPositions(segments[..|segments| - 1]) + (if MentionsTx(segments[|segments| - 1]) then [|segments| - 1] else [])
  }

  /**
   * The kept segments are a subsequence of the segments: each sits at its
   * kept position, and the positions strictly increase.
   */
  lemma {:induction false} KeepNetworkDumpsInOrder(segments: seq<seq<string>>)
    ensures var kept := KeepNetworkDumps(segments);
      var pos := KeptPositions(segments);
      && |pos| == |kept|
      && (forall k :: 0 <= k < |pos| ==> pos[k] < |segments| && kept[k] == segments[pos[k]])
      && (forall k, l :: 0 <= k < l < |pos| ==> pos[k] < pos[l])
  {
    if |segments| > 0 {
      var init := segments[..|segments| - 1];
      KeepNetworkDumpsInOrder(init);
      assert forall j :: 0 <= j < |init| ==> init[j] == segments[j];
    }
  }

  /** The kept positions are exactly those of the segments that mention `tx_packets`. */
  lemma {:induction false} KeptPositionsMentionTx(segments: seq<seq<string>>)
    ensures forall j :: 0 <= j < |segments| ==> (MentionsTx(segments[j]) <==> j in KeptPositions(segments))
  {
    if |segments| > 0 {
      var init := segments[..|segments| - 1];
      KeptPositionsMentionTx(init);
      KeptPositionsBelow(init);
      assert forall j :: 0 <= j < |init| ==> init[j] == segments[j];
    }
  }

  lemma {:induction false} KeptPositionsBelow(segments: seq<seq<string>>)
    ensures forall k :: 0 <= k < |KeptPositions(segments)| ==> KeptPositions(segments)[k] < |segments|
  {
    if |segments| > 0 {
      KeptPositionsBelow(segments[..|segments| - 1]);
    }
  }

  /** What `split_dumps` yields: the complete segments (each closed by a later header) that mention `tx_packets`. */
  function NetworkDumps(lines: seq<string>): seq<seq<string>> {
    var segments := Segments(lines);
    KeepNetworkDumps(segments[..|segments| - 1])
  }

  /**
   * Cuts the stream into dumps at every `periodic dump at ` line and keeps the
   * ones that mention `tx_packets`. Every dump after the first starts at its
   * header; the lines after the last header are never yielded.
   */
  method SplitDumps(lines: seq<string>) returns (dumps: seq<seq<string>>)
    ensures dumps == NetworkDumps(lines)
    ensures forall k :: 0 <= k < |dumps| ==> MentionsTx(dumps[k])
    ensures forall k :: 0 < k < |dumps| ==> |dumps[k]| > 0 && IsDumpHeader(dumps[k][0])
  {
    var chunk: seq<string> := [];
    dumps := [];
    for i := 0 to |lines|
      invariant var s := Segments(lines[..i]); chunk == s[|s| - 1] && dumps == KeepNetworkDumps(s[..|s| - 1])
    {
      var line := lines[i];
      assert lines[..i + 1][..i] == lines[..i];
      if IsDumpHeader(line) {
        ghost var s := Segments(lines[..i]);
        assert (s + [[line]])[..|s|] == s;
        assert s[..|s|] == s;
        if MentionsTx(chunk) {
          dumps := dumps + [chunk];
        }
        chunk := [];
      }
      chunk := chunk + [line];
    }
    assert lines[..|lines|] == lines;
    ghost var segments := Segments(lines);
    SegmentsWellCut(lines);
    KeepNetworkDumpsFrom(segments[..|segments| - 1]);
    forall k | 0 < k < |dumps|
      ensures |dumps[k]| > 0 && IsDumpHeader(dumps[k][0])
    {
      var j :| k <= j < |segments| - 1 && dumps[k] == segments[..|segments| - 1][j];
      assert dumps[k] == segments[j];
    }
  }

  /** Lines after the last header never reach the output: appending header-free lines changes nothing. */
  lemma {:induction false} TrailingLinesNotYielded(lines: seq<string>, more: seq<string>)
    requires NoHeader(more)
    ensures NetworkDumps(lines + more) == NetworkDumps(lines)
    decreases |more|
  {
    if |more| > 0 {
      var init := more[..|more| - 1];
      TrailingLinesNotYielded(lines, init);
      var all := lines + more;
      assert NoHeader(init);
      assert all[..|all| - 1] == lines + init;
      assert all[|all| - 1] == more[|more| - 1];
      assert !IsDumpHeader(all[|all| - 1]);
      var before := Segments(lines + init);
      var after := Segments(all);
      assert after == before[..|before| - 1] + [before[|before| - 1] + [more[|more| - 1]]];
      assert after[..|after| - 1] == before[..|before| - 1];
    } else {
      assert lines + more == lines;
    }
  }

  // ---------------------------------------------------------------------
  // get_dump_details
  // ---------------------------------------------------------------------

  /** One dump's dictionary: its `"timestamp"` entry, kept apart, and its counters. */
  datatype Dump = Dump(timestamp: Option<Time>, counters: map<string, int>)

  /** The `ValueError`s `get_dump_details` can raise. */
  datatype DumpError =
    | BadTimestamp(line: string)   // the header's date does not parse
    | BadCounter(word: string)     // a counter value is not an integer

  /** The iface of an interface: `knetN (port)` when a mapping line named its port, else `knetN`. */
  function IfaceLabel(knet: string, ifaceMap: map<string, string>): string {
    if knet in ifaceMap && ifaceMap[knet] != "" then knet + " (" + ifaceMap[knet] + ")" else knet
  }

  /** The key of one counter: its name with `_` read as a space, `rx error:` read as `rx errors:`, the colon dropped. */
  function CounterKey(iface: string, word: string): string {
    var name := Replace(Replace(word, "_", " "), "rx error:", "rx errors:");
    iface + ": " + DropLast(name)
  }

  /** The keys of a counter line: Python's `words[::2]`, each made a `CounterKey`. */
  function CounterKeys(iface: string, words: seq<string>): (keys: seq<string>)
  {
    var names := EveryOther(words);
    seq(|names|, k requires 0 <= k < |names| => CounterKey(iface, names[k]))
  }

  /** A key of the form `<iface>: <name>`; `"timestamp"` is not one. */
  predicate IsCounterKey(key: string) {
    exists i :: 0 <= i < |key| - 1 && key[i] == ':' && key[i + 1] == ' '
  }

  lemma CounterKeyIsLabelled(iface: string, word: string)
    ensures IsCounterKey(CounterKey(iface, word))
  {
    var key := CounterKey(iface, word);
    assert key[|iface|] == ':' && key[|iface| + 1] == ' ';
  }

  lemma TimestampIsNotCounterKey()
    ensures !IsCounterKey("timestamp")
  {
    var t := "timestamp";
    assert forall i :: 0 <= i < |t| ==> t[i] != ':';
  }

  /** Python's `words[::2]`. */
  function EveryOther(words: seq<string>): (r: seq<string>)
    ensures |r| == (|words| + 1) / 2
    ensures forall k :: 0 <= k < |r| ==> r[k] == words[2 * k]
  {
    if |words| <= 1 then words else [words[0]] + EveryOther(words[2..])
  }

  /** Python's `words[1::2]`. */
  function OddWords(words: seq<string>): (r: seq<string>)
    ensures |r| == |words| / 2
    ensures forall k :: 0 <= k < |r| ==> r[k] == words[2 * k + 1]
  {
    if |words| == 0 then [] else EveryOther(words[1..])
  }

  /** Python's `value[1:-1]`: the value with its brackets stripped. */
  function Unbracket(word: string): string {
    if |word| < 2 then "" else word[1..|word| - 1]
  }

  /** `[int(value[1:-1]) for value in words]`: every value or the first `ValueError`. */
  function ParseCounters(words: seq<string>): (r: Result<seq<int>, DumpError>)
    ensures r.Success? <==> forall k :: 0 <= k < |words| ==> ParseInt(Unbracket(words[k])).Some?
    ensures r.Success? ==>
      |r.value| == |words| && forall k :: 0 <= k < |words| ==> ParseInt(Unbracket(words[k])) == Some(r.value[k])
    ensures r.Failure? ==> exists k :: 0 <= k < |words| && r.error == BadCounter(words[k])
  {
    if |words| == 0 then Success([])
    else match ParseInt(Unbracket(words[0]))
      case None => Failure(BadCounter(words[0]))
      case Some(v) =>
        match ParseCounters(words[1..])
        case Failure(e) => Failure(e)
        case Success(vs) => Success([v] + vs)
  }

  function Min(a: int, b: int): int {
    if a <= b then a else b
  }

  /**
   * `for key, value in zip(keys, values): data[key] = value`: the first
   * `min(|keys|, |values|)` pairs are stored, a later pair overwriting an
   * earlier one with the same key, and every other entry is left alone.
   */
  function Store(data: map<string, int>, keys: seq<string>, values: seq<int>): (r: map<string, int>)
    ensures r.Keys == data.Keys + set k | 0 <= k < Min(|keys|, |values|) :: keys[k]
    ensures forall key :: key in data && key !in keys[..Min(|keys|, |values|)] ==> r[key] == data[key]
    decreases |keys|
  {
    if |keys| == 0 || |values| == 0 then data
    else Store(data[keys[0] := values[0]], keys[1..], values[1..])
  }

  /** The value stored last for a key is the one it ends up with. */
  lemma {:induction false} StoreLastWins(data: map<string, int>, keys: seq<string>, values: seq<int>, k: nat)
    requires k < Min(|keys|, |values|)
    requires keys[k] !in keys[k + 1..Min(|keys|, |values|)]
    ensures Store(data, keys, values)[keys[k]] == values[k]
    decreases |keys|
  {
    var n := Min(|keys|, |values|);
    var next := data[keys[0] := values[0]];
    if k == 0 {
      assert keys[1..][..n - 1] == keys[1..n];
    } else {
      assert keys[1..][k - 1 + 1..n - 1] == keys[k + 1..n];
      StoreLastWins(next, keys[1..], values[1..], k - 1);
    }
  }

  /** The state `get_dump_details` carries from line to line. */
  datatype Scan = Scan(dump: Dump, ifaceMap: map<string, string>, current: Option<string>)

  const StartScan := Scan(Dump(None, map[]), map[], None)

  /** `current_iface` is truthy. */
  predicate HasIface(st: Scan) {
    st.current.Some? && st.current.value != ""
  }

  /** The last whitespace-separated word of a line that starts with a non-space. */
  function LastWord(line: string): string
    requires |line| > 0 && !IsSpace(line[0])
  {
    var words := Split(line);
    words[|words| - 1]
  }

  lemma FirstCharOfPrefix(line: string, prefix: string)
    requires |prefix| > 0 && StartsWith(line, prefix)
    ensures |line| > 0 && line[0] == prefix[0]
  {
    assert line[..|prefix|][0] == line[0];
  }

  /** The kinds of line `get_dump_details` tells apart, tested in this order. */
  datatype LineKind = HeaderLine | KnetMapLine | IfaceLine | CounterLine | OtherLine

  function KindOf(line: string): LineKind {
    if IsDumpHeader(line) then HeaderLine
    else if StartsWith(line, KnetMapPrefix) then KnetMapLine
    else if StartsWith(line, IfacePrefix) then IfaceLine
    else if StartsWith(line, CounterPrefix) then CounterLine
    else OtherLine
  }

  /** The four prefixes start with different characters, so a line has the kind its prefix says. */
  lemma KindOfPrefixed(line: string)
    ensures StartsWith(line, KnetMapPrefix) ==> KindOf(line) == KnetMapLine
    ensures StartsWith(line, IfacePrefix) ==> KindOf(line) == IfaceLine
    ensures StartsWith(line, CounterPrefix) ==> KindOf(line) == CounterLine
  {
    if StartsWith(line, KnetMapPrefix) {
      FirstCharOfPrefix(line, KnetMapPrefix);
      if IsDumpHeader(line) { FirstCharOfPrefix(line, DumpHeader); }
    }
    if StartsWith(line, IfacePrefix) {
      FirstCharOfPrefix(line, IfacePrefix);
      if IsDumpHeader(line) { FirstCharOfPrefix(line, DumpHeader); }
      if StartsWith(line, KnetMapPrefix) { FirstCharOfPrefix(line, KnetMapPrefix); }
    }
    if StartsWith(line, CounterPrefix) {
      FirstCharOfPrefix(line, CounterPrefix);
      if IsDumpHeader(line) { FirstCharOfPrefix(line, DumpHeader); }
      if StartsWith(line, KnetMapPrefix) { FirstCharOfPrefix(line, KnetMapPrefix); }
      if StartsWith(line, IfacePrefix) { FirstCharOfPrefix(line, IfacePrefix); }
    }
  }

  /** A counter line under a selected interface: its counters are stored and the interface deselected. */
  function ScanCounters(st: Scan, line: string): Result<Scan, DumpError>
    requires HasIface(st)
  {
    var words := Split(line);
    match ParseCounters(OddWords(words))
    case Failure(e) => Failure(e)
    case Success(values) =>
      var keys := CounterKeys(st.current.value, words);
      Success(st.(dump := st.dump.(counters := Store(st.dump.counters, keys, values)), current := None))
  }

  /**
   * One line of `get_dump_details`: a header sets the timestamp, a knet
   * mapping line records a port, an interface line selects the interface,
   * and a counter line read while an interface is selected stores its counters.
   */
  function ScanLine(st: Scan, line: string, parseHeader: string -> Option<Time>,
                    knetMatch: string -> Option<(string, string)>): (r: Result<Scan, DumpError>)
    ensures r.Failure? ==> IsDumpHeader(line) || StartsWith(line, CounterPrefix)
    ensures r.Success? ==> st.dump.counters.Keys <= r.value.dump.counters.Keys
    ensures r.Success? && !IsDumpHeader(line) ==> r.value.dump.timestamp == st.dump.timestamp
    ensures r.Success? && !StartsWith(line, KnetMapPrefix) ==> r.value.ifaceMap == st.ifaceMap
  {
    match KindOf(line)
    case HeaderLine =>
      (match parseHeader(line)
       case None => Failure(BadTimestamp(line))
       case Some(t) => Success(st.(dump := st.dump.(timestamp := Some(t)))))
    case KnetMapLine =>
      (match knetMatch(line)
       case None => Success(st)
       case Some(mapped) => Success(st.(ifaceMap := st.ifaceMap[mapped.0 := mapped.1])))
    case IfaceLine =>
      FirstCharOfPrefix(line, IfacePrefix);
      Success(st.(current := Some(IfaceLabel(LastWord(line), st.ifaceMap))))
    case CounterLine =>
      if HasIface(st) then ScanCounters(st, line) else Success(st)
    case OtherLine =>
      Success(st)
  }

  /** The lines of a dump, read from `st` onwards; the first error ends the scan. */
  function ScanLines(st: Scan, lines: seq<string>, parseHeader: string -> Option<Time>,
                     knetMatch: string -> Option<(string, string)>): Result<Scan, DumpError>
    decreases |lines|
  {
    if |lines| == 0 then Success(st)
    else match ScanLine(st, lines[0], parseHeader, knetMatch)
      case Failure(e) => Failure(e)
      case Success(next) => ScanLines(next, lines[1..], parseHeader, knetMatch)
  }

  function DumpDetails(lines: seq<string>, parseHeader: string -> Option<Time>,
                       knetMatch: string -> Option<(string, string)>): Result<Dump, DumpError>
  {
    match ScanLines(StartScan, lines, parseHeader, knetMatch)
    case Failure(e) => Failure(e)
    case Success(st) => Success(st.dump)
  }

  /**
   * Reads one dump's lines into its dictionary. `parseHeader` stands for
   * `datetime.strptime` with the header format and `knetMatch` for the first
   * `findall` match of the knet mapping pattern.
   */
  method GetDumpDetails(dump: seq<string>, parseHeader: string -> Option<Time>,
                        knetMatch: string -> Option<(string, string)>) returns (r: Result<Dump, DumpError>)
    ensures r == DumpDetails(dump, parseHeader, knetMatch)
  {
    var timestamp: Option<Time> := None;
    var counters: map<string, int> := map[];
    var ifaceMap: map<string, string> := map[];
    var current: Option<string> := None;
    for i := 0 to |dump|
      invariant ScanLines(StartScan, dump, parseHeader, knetMatch)
        == ScanLines(Scan(Dump(timestamp, counters), ifaceMap, current), dump[i..], parseHeader, knetMatch)
    {
      var line := dump[i];
      assert dump[i..][0] == line && dump[i..][1..] == dump[i + 1..];
      ghost var st := Scan(Dump(timestamp, counters), ifaceMap, current);
      KindOfPrefixed(line);
      if IsDumpHeader(line) {
        var parsed := parseHeader(line);
        if parsed.None? {
          return Failure(BadTimestamp(line));
        }
        timestamp := parsed;
      } else if StartsWith(line, KnetMapPrefix) {
        var mapped := knetMatch(line);
        if mapped.Some? {
          ifaceMap := ifaceMap[mapped.value.0 := mapped.value.1];
        }
      } else if StartsWith(line, IfacePrefix) {
        FirstCharOfPrefix(line, IfacePrefix);
        current := Some(IfaceLabel(LastWord(line), ifaceMap));
      } else if current.Some? && current.value != "" && StartsWith(line, CounterPrefix) {
        var words := Split(line);
        var keys := CounterKeys(current.value, words);
        var values := ParseCounters(OddWords(words));
        if values.Failure? {
          return Failure(values.error);
        }
        assert ScanLine(st, line, parseHeader, knetMatch) == ScanCounters(st, line);
        counters := Store(counters, keys, values.value);
        current := None;
      }
      assert ScanLine(st, line, parseHeader, knetMatch)
        == Success(Scan(Dump(timestamp, counters), ifaceMap, current));
    }
    assert dump[|dump|..] == [];
    r := Success(Dump(timestamp, counters));
  }

  /** Scanning never stores a key that is not `<iface>: <name>`. */
  lemma {:induction false} ScanKeepsCounterKeys(st: Scan, lines: seq<string>, parseHeader: string -> Option<Time>,
                                                knetMatch: string -> Option<(string, string)>)
    requires forall key :: key in st.dump.counters ==> IsCounterKey(key)
    ensures ScanLines(st, lines, parseHeader, knetMatch).Success? ==>
      forall key :: key in ScanLines(st, lines, parseHeader, knetMatch).value.dump.counters ==> IsCounterKey(key)
    decreases |lines|
  {
    if |lines| > 0 {
      var step := ScanLine(st, lines[0], parseHeader, knetMatch);
      if step.Success? {
        var line := lines[0];
        if KindOf(line) == CounterLine && HasIface(st) {
          var words := Split(line);
          var evens := EveryOther(words);
          forall k | 0 <= k < |evens| ensures IsCounterKey(CounterKey(st.current.value, evens[k])) {
            CounterKeyIsLabelled(st.current.value, evens[k]);
          }
        }
        ScanKeepsCounterKeys(step.value, lines[1..], parseHeader, knetMatch);
      }
    }
  }

  /** Every counter of a dump is keyed `<iface>: <name>`, so none is ever stored under `"timestamp"`. */
  lemma DumpCountersAreLabelled(lines: seq<string>, parseHeader: string -> Option<Time>,
                                knetMatch: string -> Option<(string, string)>)
    ensures DumpDetails(lines, parseHeader, knetMatch).Success? ==>
      var counters := DumpDetails(lines, parseHeader, knetMatch).value.counters;
      (forall key :: key in counters ==> IsCounterKey(key)) && "timestamp" !in counters
  {
    ScanKeepsCounterKeys(StartScan, lines, parseHeader, knetMatch);
    TimestampIsNotCounterKey();
  }

  /** A counter line read while no interface is selected adds nothing. */
  lemma CounterLineNeedsIface(st: Scan, line: string, parseHeader: string -> Option<Time>,
                              knetMatch: string -> Option<(string, string)>)
    requires !HasIface(st) && StartsWith(line, CounterPrefix)
    ensures ScanLine(st, line, parseHeader, knetMatch) == Success(st)
  {
    KindOfPrefixed(line);
  }

  /** A counter line read under a selected interface is handled by `ScanCounters`. */
  lemma CounterLineUnderIface(st: Scan, line: string, parseHeader: string -> Option<Time>,
                              knetMatch: string -> Option<(string, string)>)
    requires HasIface(st) && StartsWith(line, CounterPrefix)
    ensures ScanLine(st, line, parseHeader, knetMatch) == ScanCounters(st, line)
  {
    KindOfPrefixed(line);
  }

  /**
   * A counter line fails exactly when one of its values (the odd words) is not
   * an integer; otherwise it deselects the interface and touches nothing but
   * the counters, to which it adds one key per even word paired with a value:
   * `min(#keys, #values)`, half its word count.
   */
  lemma CounterLineKeys(st: Scan, line: string)
    requires HasIface(st)
    ensures var words := Split(line);
      var r := ScanCounters(st, line);
      && (r.Success? <==> forall k :: 0 <= k < |words| / 2 ==> ParseInt(Unbracket(words[2 * k + 1])).Some?)
      && (r.Success? ==>
            && r.value == st.(dump := r.value.dump, current := None)
            && r.value.dump.timestamp == st.dump.timestamp
            && r.value.dump.counters.Keys
               == st.dump.counters.Keys + (set k | 0 <= k < |words| / 2 :: CounterKey(st.current.value, words[2 * k])))
  {
    var words := Split(line);
    CounterValuesParse(words);
    CounterKeySet(st.current.value, words);
  }

  lemma CounterValuesParse(words: seq<string>)
    ensures ParseCounters(OddWords(words)).Success?
            <==> forall k :: 0 <= k < |words| / 2 ==> ParseInt(Unbracket(words[2 * k + 1])).Some?
  {
    var odd := OddWords(words);
    assert forall k :: 0 <= k < |words| / 2 ==> odd[k] == words[2 * k + 1];
  }

  lemma CounterKeySet(iface: string, words: seq<string>)
    ensures var keys := CounterKeys(iface, words);
      && Min(|keys|, |OddWords(words)|) == |words| / 2
      && (set k | 0 <= k < |words| / 2 :: keys[k]) == (set k | 0 <= k < |words| / 2 :: CounterKey(iface, words[2 * k]))
  {
    var keys := CounterKeys(iface, words);
    var n := |words| / 2;
    var names := EveryOther(words);
    assert forall k :: 0 <= k < n ==> keys[k] == CounterKey(iface, names[k]) == CounterKey(iface, words[2 * k]);
  }

  /**
   * Each counter of a counter line holds the integer inside the value word
   * that follows its name, unless the same key comes again later on the line.
   */
  lemma CounterLineValues(st: Scan, line: string, k: nat)
    requires HasIface(st)
    requires ScanCounters(st, line).Success?
    requires k < |Split(line)| / 2
    requires CounterKeys(st.current.value, Split(line))[k] !in CounterKeys(st.current.value, Split(line))[k + 1..|Split(line)| / 2]
    ensures var words := Split(line);
      ParseInt(Unbracket(words[2 * k + 1]))
        == Some(ScanCounters(st, line).value.dump.counters[CounterKey(st.current.value, words[2 * k])])
  {
    var words := Split(line);
    var odd := OddWords(words);
    var keys := CounterKeys(st.current.value, words);
    var n := |words| / 2;
    assert Min(|keys|, |odd|) == n;
    var parsed := ParseCounters(odd);
    StoreLastWins(st.dump.counters, keys, parsed.value, k);
    assert odd[k] == words[2 * k + 1];
  }

  /** A counter line always leaves no interface selected. */
  lemma CounterLineDeselects(st: Scan, line: string, parseHeader: string -> Option<Time>,
                             knetMatch: string -> Option<(string, string)>)
    requires StartsWith(line, CounterPrefix)
    ensures ScanLine(st, line, parseHeader, knetMatch).Success? ==> !HasIface(ScanLine(st, line, parseHeader, knetMatch).value)
  {
    KindOfPrefixed(line);
  }

  /** Only an `iface name: knet` line selects an interface. */
  lemma {:induction false} ScanKeepsNoIface(st: Scan, lines: seq<string>, parseHeader: string -> Option<Time>,
                                            knetMatch: string -> Option<(string, string)>)
    requires !HasIface(st)
    requires forall i :: 0 <= i < |lines| ==> !StartsWith(lines[i], IfacePrefix)
    ensures ScanLines(st, lines, parseHeader, knetMatch).Success? ==> !HasIface(ScanLines(st, lines, parseHeader, knetMatch).value)
    decreases |lines|
  {
    if |lines| > 0 {
      var step := ScanLine(st, lines[0], parseHeader, knetMatch);
      if step.Success? {
        assert KindOf(lines[0]) != IfaceLine;
        assert !HasIface(step.value);
        ScanKeepsNoIface(step.value, lines[1..], parseHeader, knetMatch);
      }
    }
  }

  /**
   * After a counter line the interface must be named again: a later counter
   * line adds nothing unless an `iface name: knet` line comes in between.
   */
  lemma RepeatedCounterLineAddsNothing(st: Scan, first: string, between: seq<string>, second: string,
                                       parseHeader: string -> Option<Time>,
                                       knetMatch: string -> Option<(string, string)>)
    requires StartsWith(first, CounterPrefix) && StartsWith(second, CounterPrefix)
    requires forall i :: 0 <= i < |between| ==> !StartsWith(between[i], IfacePrefix)
    ensures ScanLines(st, [first] + between + [second], parseHeader, knetMatch)
      == ScanLines(st, [first] + between, parseHeader, knetMatch)
  {
    ScanLinesAppend(st, [first] + between, [second], parseHeader, knetMatch);
    assert ([first] + between)[0] == first && ([first] + between)[1..] == between;
    var front := ScanLines(st, [first] + between, parseHeader, knetMatch);
    var step := ScanLine(st, first, parseHeader, knetMatch);
    if step.Success? {
      CounterLineDeselects(st, first, parseHeader, knetMatch);
      assert front == ScanLines(step.value, between, parseHeader, knetMatch);
      ScanKeepsNoIface(step.value, between, parseHeader, knetMatch);
    }
    if front.Success? {
      var mid := front.value;
      CounterLineNeedsIface(mid, second, parseHeader, knetMatch);
      assert [second][0] == second && [second][1..] == [];
      assert ScanLines(mid, [], parseHeader, knetMatch) == Success(mid);
    }
  }

  /**
   * An interface line names the interface by its last word; once a mapping
   * line has given that knet a port, the label is `knetN (port)`.
   */
  lemma KnetMappingLabelsIface(st: Scan, mapLine: string, ifaceLine: string, knet: string, port: string,
                               parseHeader: string -> Option<Time>,
                               knetMatch: string -> Option<(string, string)>)
    requires StartsWith(mapLine, KnetMapPrefix) && knetMatch(mapLine) == Some((knet, port)) && port != ""
    requires StartsWith(ifaceLine, IfacePrefix) && Split(ifaceLine)[|Split(ifaceLine)| - 1] == knet
    ensures ScanLines(st, [mapLine, ifaceLine], parseHeader, knetMatch)
      == Success(st.(ifaceMap := st.ifaceMap[knet := port], current := Some(knet + " (" + port + ")")))
  {
    KindOfPrefixed(mapLine);
    KindOfPrefixed(ifaceLine);
    var mapped := st.(ifaceMap := st.ifaceMap[knet := port]);
    assert ScanLine(st, mapLine, parseHeader, knetMatch) == Success(mapped);
    var labelled := mapped.(current := Some(knet + " (" + port + ")"));
    assert ScanLine(mapped, ifaceLine, parseHeader, knetMatch) == Success(labelled);
    assert [mapLine, ifaceLine][0] == mapLine && [mapLine, ifaceLine][1..] == [ifaceLine];
    assert [ifaceLine][0] == ifaceLine && [ifaceLine][1..] == [];
    assert ScanLines(labelled, [], parseHeader, knetMatch) == Success(labelled);
    assert ScanLines(mapped, [ifaceLine], parseHeader, knetMatch) == Success(labelled);
  }

  /** An interface line reads the label from whatever mapping the scan holds when it comes. */
  lemma MappedIfaceIsLabelled(st: Scan, ifaceLine: string, parseHeader: string -> Option<Time>,
                              knetMatch: string -> Option<(string, string)>)
    requires StartsWith(ifaceLine, IfacePrefix)
    requires var knet := Split(ifaceLine)[|Split(ifaceLine)| - 1];
      knet in st.ifaceMap && st.ifaceMap[knet] != ""
    ensures var knet := Split(ifaceLine)[|Split(ifaceLine)| - 1];
      ScanLine(st, ifaceLine, parseHeader, knetMatch)
        == Success(st.(current := Some(knet + " (" + st.ifaceMap[knet] + ")")))
  {
    KindOfPrefixed(ifaceLine);
  }

  /** Scanning `a + b` is scanning `a`, then `b` from where `a` left off; an error in `a` ends it. */
  lemma {:induction false} ScanLinesAppend(st: Scan, a: seq<string>, b: seq<string>,
                                           parseHeader: string -> Option<Time>,
                                           knetMatch: string -> Option<(string, string)>)
    ensures ScanLines(st, a + b, parseHeader, knetMatch)
      == match ScanLines(st, a, parseHeader, knetMatch)
         case Failure(e) => Failure(e)
         case Success(mid) => ScanLines(mid, b, parseHeader, knetMatch)
    decreases |a|
  {
    if |a| == 0 {
      assert a + b == b;
    } else {
      assert (a + b)[0] == a[0] && (a + b)[1..] == a[1..] + b;
      match ScanLine(st, a[0], parseHeader, knetMatch)
      case Failure(e) =>
      case Success(next) => ScanLinesAppend(next, a[1..], b, parseHeader, knetMatch);
    }
  }

  /** Only a `name: [knet` line changes the knet-to-port mapping. */
  lemma {:induction false} ScanKeepsIfaceMap(st: Scan, lines: seq<string>, parseHeader: string -> Option<Time>,
                                             knetMatch: string -> Option<(string, string)>)
    requires forall i :: 0 <= i < |lines| ==> !StartsWith(lines[i], KnetMapPrefix)
    ensures ScanLines(st, lines, parseHeader, knetMatch).Success? ==>
      ScanLines(st, lines, parseHeader, knetMatch).value.ifaceMap == st.ifaceMap
    decreases |lines|
  {
    if |lines| > 0 {
      var step := ScanLine(st, lines[0], parseHeader, knetMatch);
      if step.Success? {
        assert KindOf(lines[0]) != KnetMapLine;
        assert step.value.ifaceMap == st.ifaceMap;
        ScanKeepsIfaceMap(step.value, lines[1..], parseHeader, knetMatch);
      }
    }
  }

  /** A mapping line that maps another knet, or matches nothing, keeps the port recorded for `knet`. */
  lemma {:induction false} ScanKeepsKnetEntry(st: Scan, lines: seq<string>, knet: string,
                                              parseHeader: string -> Option<Time>,
                                              knetMatch: string -> Option<(string, string)>)
    requires knet in st.ifaceMap
    requires forall i :: 0 <= i < |lines| && StartsWith(lines[i], KnetMapPrefix) ==>
      knetMatch(lines[i]).None? || knetMatch(lines[i]).value.0 != knet
    ensures var r := ScanLines(st, lines, parseHeader, knetMatch);
      r.Success? ==> knet in r.value.ifaceMap && r.value.ifaceMap[knet] == st.ifaceMap[knet]
    decreases |lines|
  {
    if |lines| > 0 {
      var step := ScanLine(st, lines[0], parseHeader, knetMatch);
      if step.Success? {
        KindOfPrefixed(lines[0]);
        assert knet in step.value.ifaceMap && step.value.ifaceMap[knet] == st.ifaceMap[knet];
        ScanKeepsKnetEntry(step.value, lines[1..], knet, parseHeader, knetMatch);
      }
    }
  }

  /**
   * A mapping line labels an interface line that comes after it, whatever
   * other lines sit between the two, as long as none of them maps the same
   * knet again; mappings of other knets leave its entry alone.
   */
  lemma EarlierMappingLabelsIface(st: Scan, mapLine: string, between: seq<string>, ifaceLine: string,
                                  knet: string, port: string,
                                  parseHeader: string -> Option<Time>,
                                  knetMatch: string -> Option<(string, string)>)
    requires StartsWith(mapLine, KnetMapPrefix) && knetMatch(mapLine) == Some((knet, port)) && port != ""
    requires forall i :: 0 <= i < |between| && StartsWith(between[i], KnetMapPrefix) ==>
      knetMatch(between[i]).None? || knetMatch(between[i]).value.0 != knet
    requires StartsWith(ifaceLine, IfacePrefix) && Split(ifaceLine)[|Split(ifaceLine)| - 1] == knet
    ensures var r := ScanLines(st, [mapLine] + between + [ifaceLine], parseHeader, knetMatch);
      && (r.Success? <==> ScanLines(st, [mapLine] + between, parseHeader, knetMatch).Success?)
      && (r.Success? ==> && r.value.current == Some(knet + " (" + port + ")")
                         && knet in r.value.ifaceMap && r.value.ifaceMap[knet] == port)
  {
    KindOfPrefixed(mapLine);
    var mapped := st.(ifaceMap := st.ifaceMap[knet := port]);
    assert ScanLine(st, mapLine, parseHeader, knetMatch) == Success(mapped);
    assert ([mapLine] + between)[0] == mapLine && ([mapLine] + between)[1..] == between;
    ScanLinesAppend(st, [mapLine] + between, [ifaceLine], parseHeader, knetMatch);
    var front := ScanLines(st, [mapLine] + between, parseHeader, knetMatch);
    assert front == ScanLines(mapped, between, parseHeader, knetMatch);
    ScanKeepsKnetEntry(mapped, between, knet, parseHeader, knetMatch);
    if front.Success? {
      var mid := front.value;
      MappedIfaceIsLabelled(mid, ifaceLine, parseHeader, knetMatch);
      var labelled := mid.(current := Some(knet + " (" + port + ")"));
      assert [ifaceLine][0] == ifaceLine && [ifaceLine][1..] == [];
      assert ScanLines(labelled, [], parseHeader, knetMatch) == Success(labelled);
      assert ScanLines(mid, [ifaceLine], parseHeader, knetMatch) == Success(labelled);
    }
  }

  /** Without a mapping for its knet, an interface line labels the interface with the bare knet name. */
  lemma UnmappedIfaceIsBareKnet(st: Scan, ifaceLine: string, parseHeader: string -> Option<Time>,
                                knetMatch: string -> Option<(string, string)>)
    requires StartsWith(ifaceLine, IfacePrefix)
    requires Split(ifaceLine)[|Split(ifaceLine)| - 1] !in st.ifaceMap
    ensures ScanLine(st, ifaceLine, parseHeader, knetMatch)
      == Success(st.(current := Some(Split(ifaceLine)[|Split(ifaceLine)| - 1])))
  {
    KindOfPrefixed(ifaceLine);
  }

  // ---------------------------------------------------------------------
  // get_interfaces_details
  // ---------------------------------------------------------------------

  /** The values one counter takes across the dumps, in dump order, skipping dumps that lack it. */
  function Column(dumps: seq<Dump>, key: string): seq<int> {
    if |dumps| == 0 then []
    else
      var last := dumps[|dumps| - 1];
      Column(dumps[..|dumps| - 1], key) + (if key in last.counters then [last.counters[key]] else [])
  }

  /** Every counter key some dump has. */
  function AllKeys(dumps: seq<Dump>): set<string> {
    if |dumps| == 0 then {} else AllKeys(dumps[..|dumps| - 1]) + dumps[|dumps| - 1].counters.Keys
  }

  lemma {:induction false} ColumnOfAbsentKey(dumps: seq<Dump>, key: string)
    requires key !in AllKeys(dumps)
    ensures Column(dumps, key) == []
  {
    if |dumps| > 0 {
      ColumnOfAbsentKey(dumps[..|dumps| - 1], key);
    }
  }

  /**
   * Transposes the dumps into one list per counter (a `defaultdict(list)`),
   * appending each dump's value in dump order; the timestamp is not a counter.
   */
  method GetInterfacesDetails(dumps: seq<Dump>) returns (details: map<string, seq<int>>)
    ensures details.Keys == AllKeys(dumps)
    ensures forall key :: key in details ==> details[key] == Column(dumps, key)
  {
    details := map[];
    for i := 0 to |dumps|
      invariant details.Keys == AllKeys(dumps[..i])
      invariant forall key :: key in details ==> details[key] == Column(dumps[..i], key)
    {
      assert dumps[..i + 1][..i] == dumps[..i];
      var counters := dumps[i].counters;
      var pending := counters.Keys;
      while pending != {}
        invariant pending <= counters.Keys
        invariant details.Keys == AllKeys(dumps[..i]) + (counters.Keys - pending)
        invariant forall key :: key in details && key !in pending ==> details[key] == Column(dumps[..i + 1], key)
        invariant forall key :: key in details && key in pending ==> details[key] == Column(dumps[..i], key)
        decreases pending
      {
        var key :| key in pending;
        if key !in details {
          ColumnOfAbsentKey(dumps[..i], key);
        }
        var values := if key in details then details[key] else [];
        details := details[key := values + [counters[key]]];
        pending := pending - {key};
      }
    }
    assert dumps[..|dumps|] == dumps;
  }

  /** A counter's list is never longer than the dumps, and holds one value per dump when every dump has it. */
  lemma {:induction false} ColumnLength(dumps: seq<Dump>, key: string)
    ensures |Column(dumps, key)| <= |dumps|
    ensures (forall i :: 0 <= i < |dumps| ==> key in dumps[i].counters) ==> |Column(dumps, key)| == |dumps|
  {
    if |dumps| > 0 {
      ColumnLength(dumps[..|dumps| - 1], key);
    }
  }

  /** When every dump's counters are labelled, the transposed details never hold a `"timestamp"` list. */
  lemma {:induction false} NoTimestampSeries(dumps: seq<Dump>)
    requires forall i, key :: 0 <= i < |dumps| && key in dumps[i].counters ==> IsCounterKey(key)
    ensures "timestamp" !in AllKeys(dumps)
  {
    TimestampIsNotCounterKey();
    if |dumps| > 0 {
      NoTimestampSeries(dumps[..|dumps| - 1]);
    }
  }

  // ---------------------------------------------------------------------
  // get_counter_diffs
  // ---------------------------------------------------------------------

  /** The growth of a 32-bit counter between two readings, allowing for one wrap-around. */
  function CounterDelta(before: int, after: int): int {
    if before <= after then after - before else CounterModulus - before + after
  }

  /** The deltas between consecutive readings: `zip(values[:-1], values[1:])`. */
  function Deltas(values: seq<int>): (deltas: seq<int>)
    ensures |deltas| == if |values| <= 1 then 0 else |values| - 1
  {
    if |values| <= 1 then [] else [CounterDelta(values[0], values[1])] + Deltas(values[1..])
  }

  /** Converts every counter's raw readings into deltas between consecutive readings. */
  function GetCounterDiffs(details: map<string, seq<int>>): (diffs: map<string, seq<int>>)
    ensures diffs.Keys == details.Keys
    ensures forall key :: key in diffs ==>
      |diffs[key]| == if |details[key]| <= 1 then 0 else |details[key]| - 1
  {
    map key | key in details :: Deltas(details[key])
  }

  /** For readings of a 32-bit counter, the delta is itself a 32-bit value that takes `before` to `after` modulo 2**32. */
  lemma DeltaWraps(before: int, after: int)
    requires 0 <= before < CounterModulus && 0 <= after < CounterModulus
    ensures 0 <= CounterDelta(before, after) < CounterModulus
    ensures (before + CounterDelta(before, after)) % CounterModulus == after
  {
    if before > after {
      assert before + CounterDelta(before, after) == after + CounterModulus;
    }
  }

  /** Replays deltas from a first reading, wrapping at 2**32: the inverse of `Deltas`. */
  function Replay(first: int, deltas: seq<int>): (readings: seq<int>)
    ensures |readings| == |deltas| + 1 && readings[0] == first
    decreases |deltas|
  {
    if |deltas| == 0 then [first] else [first] + Replay((first + deltas[0]) % CounterModulus, deltas[1..])
  }

  predicate IsCounterReading(values: seq<int>) {
    forall i :: 0 <= i < |values| ==> 0 <= values[i] < CounterModulus
  }

  /** Deltas lose nothing: replaying them from the first reading gives back every 32-bit reading. */
  lemma {:induction false} ReplayDeltas(values: seq<int>)
    requires |values| > 0 && IsCounterReading(values)
    ensures Replay(values[0], Deltas(values)) == values
  {
    if |values| > 1 {
      DeltaWraps(values[0], values[1]);
      ReplayDeltas(values[1..]);
      assert Deltas(values)[1..] == Deltas(values[1..]);
      assert values == [values[0]] + values[1..];
    }
  }

  /** Every delta of 32-bit readings is a 32-bit value. */
  lemma {:induction false} DeltasInRange(values: seq<int>)
    requires IsCounterReading(values)
    ensures IsCounterReading(Deltas(values))
  {
    if |values| > 1 {
      DeltaWraps(values[0], values[1]);
      DeltasInRange(values[1..]);
    }
  }

  // ---------------------------------------------------------------------
  // convert_packet_per_second, convert_bits_per_second
  // ---------------------------------------------------------------------

  /** `packets` become `packets per second` at 60 seconds per sample. */
  const SampleSeconds := 60
  /** `bytes` become `bits per second` divided by `60 // 8`. */
  const BytesDivisor := SampleSeconds / 8

  /** The new key of a counter: a key ending in ` <unit>` has every `<unit>` replaced by `rate`. */
  function RateKey(key: string, unit: string, rate: string): string
    requires |unit| > 0
  {
    if EndsWith(key, " " + unit) then Replace(key, unit, rate) else key
  }

  /** The new values of a counter: divided by `divisor` when the key ends in ` <unit>`. */
  function RateValues(key: string, values: seq<real>, unit: string, divisor: real): (r: seq<real>)
    requires divisor != 0.0
    ensures |r| == |values|
  {
    if EndsWith(key, " " + unit) then seq(|values|, i requires 0 <= i < |values| => values[i] / divisor)
    else values
  }

  /**
   * What the renaming loop leaves behind: the renamed keys, each holding the
   * converted list of a key that was renamed to it; where only one key is
   * renamed to a given key, exactly that key's converted list.
   */
  ghost predicate Converted(details: map<string, seq<real>>, converted: map<string, seq<real>>,
                            unit: string, rate: string, divisor: real)
    requires |unit| > 0 && divisor != 0.0
  {
    && converted.Keys == (set key | key in details :: RateKey(key, unit, rate))
    && (forall key :: key in converted ==>
          exists source :: source in details && RateKey(source, unit, rate) == key
            && converted[key] == RateValues(source, details[source], unit, divisor))
    && (forall source :: source in details
          && (forall other :: other in details && RateKey(other, unit, rate) == RateKey(source, unit, rate) ==> other == source)
          ==> converted[RateKey(source, unit, rate)] == RateValues(source, details[source], unit, divisor))
  }

  /** The loop shared by the two conversions. */
  method ConvertCounters(details: map<string, seq<real>>, unit: string, rate: string, divisor: real)
    returns (converted: map<string, seq<real>>)
    requires |unit| > 0 && divisor != 0.0
    ensures Converted(details, converted, unit, rate, divisor)
  {
    converted := map[];
    var pending := details.Keys;
    while pending != {}
      invariant pending <= details.Keys
      invariant converted.Keys == set key | key in details.Keys - pending :: RateKey(key, unit, rate)
      invariant forall key :: key in converted ==>
        exists source :: source in details && source !in pending && RateKey(source, unit, rate) == key
          && converted[key] == RateValues(source, details[source], unit, divisor)
      decreases pending
    {
      var key :| key in pending;
      var newKey := RateKey(key, unit, rate);
      converted := converted[newKey := RateValues(key, details[key], unit, divisor)];
      pending := pending - {key};
    }
    forall source | source in details
        && (forall other :: other in details && RateKey(other, unit, rate) == RateKey(source, unit, rate) ==> other == source)
      ensures converted[RateKey(source, unit, rate)] == RateValues(source, details[source], unit, divisor)
    {
      var key := RateKey(source, unit, rate);
      var s :| s in details && RateKey(s, unit, rate) == key
        && converted[key] == RateValues(s, details[s], unit, divisor);
    }
  }

  /** Renames `... packets` counters to `... packets per second` and divides them by 60. */
  method ConvertPacketPerSecond(details: map<string, seq<real>>) returns (converted: map<string, seq<real>>)
    ensures Converted(details, converted, "packets", "packets per second", SampleSeconds as real)
  {
    converted := ConvertCounters(details, "packets", "packets per second", SampleSeconds as real);
  }

  /** Renames `... bytes` counters to `... bits per second` and divides them by `60 // 8`. */
  method ConvertBitsPerSecond(details: map<string, seq<real>>) returns (converted: map<string, seq<real>>)
    ensures Converted(details, converted, "bytes", "bits per second", BytesDivisor as real)
  {
    converted := ConvertCounters(details, "bytes", "bits per second", BytesDivisor as real);
  }

  /**
   * A counter whose key ends in ` <unit>` ends in ` <rate>` afterwards, as the
   * plots expect, provided the unit is a single word.
   */
  lemma RateKeyRenamesSuffix(key: string, unit: string, rate: string)
    requires |unit| > 0 && ' ' !in unit
    requires EndsWith(key, " " + unit)
    ensures EndsWith(RateKey(key, unit, rate), " " + rate)
  {
    var head := key[..|key| - |unit| - 1];
    assert key == head + [' '] + unit;
    ReplaceAround(head, ' ', unit, unit, rate);
    ReplaceWhole(unit, rate);
    var r := Replace(head, unit, rate) + [' '] + rate;
    assert r[|r| - |rate| - 1..] == " " + rate;
  }
}
