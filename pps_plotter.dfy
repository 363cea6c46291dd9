/**
 * The line parser of the packets-per-second plotter
 * (timeplots/pps_plotter.py): the timestamp of a line, the first number of
 * a text, and the datapoints of a file, one per timestamped line.
 */
module PpsPlotter {
  import opened Wrappers
  import opened Text

  /** A timestamp, in whole seconds. */
  type Time = int

  // ---------------------------------------------------------------------
  // get_timestamp
  // ---------------------------------------------------------------------

  /**
   * The string handed to the time parser: the words at indices 1, 2, 3
   * and 5 of the line, joined by single spaces (the word at index 4 is
   * skipped).
   */
  function Candidate(words: seq<string>): string
    requires |words| >= 6
  {
    Join([words[1], words[2], words[3], words[5]], " ")
  }

  /**
   * The timestamp of a line, or `None`. `strptime` stands for parsing with
   * the format `%b %d %H:%M:%S %Y:` and answers `None` where the parse
   * raises `ValueError`; a line of fewer than six words has none.
   */
  function GetTimestamp(strptime: string -> Option<Time>, line: string): (r: Option<Time>)
    ensures r.Some? ==> |Split(line)| >= 6
  {
    var words := Split(line);
    if |words| < 6 then None else strptime(Candidate(words))
  }

  /**
   * A line of at least six words, however they are spaced, is parsed from
   * its words 1, 2, 3 and 5, separated by single spaces.
   */
  lemma TimestampWords(strptime: string -> Option<Time>, line: string)
    requires |Split(line)| >= 6
    ensures var w := Split(line);
      GetTimestamp(strptime, line) == strptime(w[1] + " " + w[2] + " " + w[3] + " " + w[5])
  {
    var w := Split(line);
    JoinFour(w[1], w[2], w[3], w[5]);
  }

  lemma JoinFour(a: string, b: string, c: string, d: string)
    ensures Join([a, b, c, d], " ") == a + " " + b + " " + c + " " + d
  {
    var four := [a, b, c, d];
    assert four[1..] == [b, c, d] && four[1..][1..] == [c, d] && four[1..][1..][1..] == [d];
    assert Join([d], " ") == d;
    assert Join([c, d], " ") == c + " " + d;
    assert Join([b, c, d], " ") == b + " " + (c + " " + d);
    assert Join(four, " ") == a + " " + (b + " " + (c + " " + d));
  }

  /** A line of fewer than six words, however they are spaced, has no timestamp. */
  lemma ShortLineHasNoTimestamp(strptime: string -> Option<Time>, line: string)
    requires |Split(line)| < 6
    ensures GetTimestamp(strptime, line) == None
  {
  }

  /** The word at index 4 (the one after the clock time) plays no part. */
  lemma FifthWordIgnored(strptime: string -> Option<Time>, words: seq<string>, other: string)
    requires |words| >= 6 && forall i :: 0 <= i < |words| ==> IsWord(words[i])
    requires IsWord(other)
    ensures GetTimestamp(strptime, Join(words[4 := other], " ")) == GetTimestamp(strptime, Join(words, " "))
  {
    SplitJoin(words);
    SplitJoin(words[4 := other]);
    TimestampWords(strptime, Join(words, " "));
    TimestampWords(strptime, Join(words[4 := other], " "));
  }

  // ---------------------------------------------------------------------
  // get_numeric
  // ---------------------------------------------------------------------

  /** The value of the first all-digit word, if any. */
  function FirstNumeric(words: seq<string>): (r: Option<nat>)
    ensures r.None? <==> forall i :: 0 <= i < |words| ==> !IsNumeric(words[i])
    ensures r.Some? ==> exists i :: (0 <= i < |words| && IsNumeric(words[i]) && r.value == DigitsValue(words[i])
                                     && forall j :: 0 <= j < i ==> !IsNumeric(words[j]))
  {
    if |words| == 0 then None
    else if IsNumeric(words[0]) then Some(DigitsValue(words[0]))
    else
      var r := FirstNumeric(words[1..]);
      assert forall i :: 1 <= i < |words| ==> words[i] == words[1..][i - 1];
      r
  }

  /** The value of the first all-digit word of a text, or `None` when there is none. */
  function GetNumeric(text: string): (r: Option<nat>)
    ensures r.None? <==> forall i :: 0 <= i < |Split(text)| ==> !IsNumeric(Split(text)[i])
    ensures r.Some? ==> exists i :: (0 <= i < |Split(text)| && IsNumeric(Split(text)[i]) && r.value == DigitsValue(Split(text)[i])
                                     && forall j :: 0 <= j < i ==> !IsNumeric(Split(text)[j]))
  {
    var words := Split(text);
    assert |words| == |Split(text)| && forall i :: 0 <= i < |words| ==> words[i] == Split(text)[i];
    FirstNumeric(words)
  }

  /** The first all-digit word decides. */
  lemma {:induction false} FirstNumericAt(words: seq<string>, k: nat)
    requires k < |words| && IsNumeric(words[k])
    requires forall j :: 0 <= j < k ==> !IsNumeric(words[j])
    ensures FirstNumeric(words) == Some(DigitsValue(words[k]))
  {
    if k > 0 {
      FirstNumericAt(words[1..], k - 1);
    }
  }

  /**
   * A number written among words, none of which before it is all digits,
   * is the number read back.
   */
  lemma NumericRoundTrip(before: seq<string>, n: nat, after: seq<string>)
    requires forall i :: 0 <= i < |before| ==> IsWord(before[i]) && !IsNumeric(before[i])
    requires forall i :: 0 <= i < |after| ==> IsWord(after[i])
    ensures GetNumeric(Join(before + [ShowNat(n)] + after, " ")) == Some(n)
  {
    var words := before + [ShowNat(n)] + after;
    assert forall i :: 0 <= i < |words| ==> IsWord(words[i]);
    SplitJoin(words);
    FirstNumericAt(words, |before|);
    DigitsValueShowNat(n);
  }

  // ---------------------------------------------------------------------
  // re.split(r" ?[TR]X ?", line)
  // ---------------------------------------------------------------------

  predicate IsDirection(c: char) {
    c == 'T' || c == 'R'
  }

  /** One if the text has a space at `i`, else zero: the trailing ` ?` of the pattern. */
  function TrailingSpace(s: string, i: nat): nat {
    if i < |s| && s[i] == ' ' then 1 else 0
  }

  /**
   * The length of the match of ` ?[TR]X ?` at the start of `s`, or zero when
   * there is none. The leading space is taken when what follows it
   * matches, the trailing one whenever it is there.
   */
  function MatchLength(s: string): (n: nat)
    ensures n > 0 ==> 2 <= n <= |s|
  {
    if 2 < |s| && s[0] == ' ' && IsDirection(s[1]) && s[2] == 'X' then 3 + TrailingSpace(s, 3)
    else if 1 < |s| && IsDirection(s[0]) && s[1] == 'X' then 2 + TrailingSpace(s, 2)
    else 0
  }

  /**
   * The pieces `re.split` cuts the rest of a line into, scanning left to
   * right for matches that do not overlap; `piece` is the text read since
   * the last match.
   */
  function Pieces(s: string, piece: string): (pieces: seq<string>)
    ensures |pieces| >= 1
    decreases |s|
  {
    if |s| == 0 then [piece]
    else
      var n := MatchLength(s);
      if n > 0 then [piece] + Pieces(s[n..], "")
      else Pieces(s[1..], piece + [s[0]])
  }

  /** `re.split(r" ?[TR]X ?", line)`. */
  function TrxSplit(line: string): (parts: seq<string>)
    ensures |parts| >= 1
  {
    Pieces(line, "")
  }

  predicate NoX(s: string) {
    forall i :: 0 <= i < |s| ==> s[i] != 'X'
  }

  /** Text without an `X` joins the current piece, up to the end of the line. */
  lemma {:induction false} PiecesWithoutX(s: string, piece: string)
    requires NoX(s)
    ensures Pieces(s, piece) == [piece + s]
    decreases |s|
  {
    if |s| > 0 {
      assert MatchLength(s) == 0 by {
        assert |s| > 1 ==> s[1] != 'X';
        assert |s| > 2 ==> s[2] != 'X';
      }
      PiecesWithoutX(s[1..], piece + [s[0]]);
      assert piece + [s[0]] + s[1..] == piece + s;
    } else {
      assert piece + s == piece;
    }
  }

  /**
   * Text without an `X` followed by a ` TX ` or ` RX ` marker closes the
   * current piece; the scan goes on after the marker.
   */
  lemma {:induction false} PiecesAtMarker(front: string, direction: char, rest: string, piece: string)
    requires NoX(front) && IsDirection(direction)
    ensures Pieces(front + [' ', direction, 'X', ' '] + rest, piece) == [piece + front] + Pieces(rest, "")
    decreases |front|
  {
    var s := front + [' ', direction, 'X', ' '] + rest;
    if |front| == 0 {
      assert s == [' ', direction, 'X', ' '] + rest;
      assert MatchLength(s) == 4;
      assert s[4..] == rest;
      assert piece + front == piece;
    } else {
      assert MatchLength(s) == 0 by {
        assert s[1] != 'X' && (|s| > 2 ==> s[2] != 'X');
      }
      assert s[1..] == front[1..] + [' ', direction, 'X', ' '] + rest;
      PiecesAtMarker(front[1..], direction, rest, piece + [front[0]]);
      assert piece + [front[0]] + front[1..] == piece + front;
    }
  }

  /** The line of a pps file, its TX part and its RX part. */
  function TrxLine(front: string, tx: string, rx: string): string {
    front + " TX " + tx + " RX " + rx
  }

  /**
   * A line with a ` TX ` and an ` RX ` marker and no other `X` splits into
   * the text before, between and after them.
   */
  lemma TrxSplitRoundTrip(front: string, tx: string, rx: string)
    requires NoX(front) && NoX(tx) && NoX(rx)
    ensures TrxSplit(TrxLine(front, tx, rx)) == [front, tx, rx]
  {
    var rest := tx + [' ', 'R', 'X', ' '] + rx;
    TrxLineShape(front, tx, rx);
    PiecesAtMarker(front, 'T', rest, "");
    PiecesAtMarker(tx, 'R', rx, "");
    PiecesWithoutX(rx, "");
    assert "" + front == front && "" + tx == tx && "" + rx == rx;
    assert Pieces(rest, "") == [tx, rx];
  }

  lemma TrxLineShape(front: string, tx: string, rx: string)
    ensures TrxLine(front, tx, rx) == front + [' ', 'T', 'X', ' '] + (tx + [' ', 'R', 'X', ' '] + rx)
  {
  }

  /** A line without any `X` is one piece. */
  lemma SplitWithoutX(line: string)
    requires NoX(line)
    ensures TrxSplit(line) == [line]
  {
    PiecesWithoutX(line, "");
    assert "" + line == line;
  }

  // ---------------------------------------------------------------------
  // get_datapoints
  // ---------------------------------------------------------------------

  /** The measurements a line may carry, in the order they are looked for. */
  const Measures: seq<string> := ["pkts/s", "kB/s", "PktLen"]

  /** The first of the measurements that occurs in the text. */
  function FirstMeasure(text: string, measures: seq<string>): (r: Option<string>)
    ensures r.None? <==> forall i :: 0 <= i < |measures| ==> !Contains(text, measures[i])
    ensures r.Some? ==> exists i :: (0 <= i < |measures| && r.value == measures[i] && Contains(text, measures[i])
                                     && forall j :: 0 <= j < i ==> !Contains(text, measures[j]))
  {
    if |measures| == 0 then None
    else if Contains(text, measures[0]) then Some(measures[0])
    else
      var r := FirstMeasure(text, measures[1..]);
      assert forall i :: 1 <= i < |measures| ==> measures[i] == measures[1..][i - 1];
      r
  }

  /** One datapoint: its measurement, its time and the first number of the TX and RX parts. */
  datatype Datapoint = Datapoint(measurement: string, timestamp: Time, tx: Option<nat>, rx: Option<nat>)

  /** What stops the parse of a timestamped line. */
  datatype DatapointError =
    | NotThreeParts(line: string)   // the unpacking `_, TX, RX = ...` fails
    | NoMeasure(line: string)       // indexing the empty list of measurements fails

  /** The datapoint of one line: none for a line without a timestamp. */
  function GetDatapoint(strptime: string -> Option<Time>, line: string): (r: Result<Option<Datapoint>, DatapointError>)
    ensures r == Success(None) <==> GetTimestamp(strptime, line).None?
    ensures r.Failure? ==> GetTimestamp(strptime, line).Some?
    ensures r.Failure? ==> (r.error == NotThreeParts(line) <==> |TrxSplit(line)| != 3)
    ensures r.Success? && r.value.Some? ==>
      var p := r.value.value;
      && GetTimestamp(strptime, line) == Some(p.timestamp)
      && |TrxSplit(line)| == 3
      && p.measurement in Measures && Contains(TrxSplit(line)[1], p.measurement)
      && p.tx == GetNumeric(TrxSplit(line)[1]) && p.rx == GetNumeric(TrxSplit(line)[2])
  {
    match GetTimestamp(strptime, line)
    case None => Success(None)
    case Some(timestamp) =>
      var parts := TrxSplit(line);
      if |parts| != 3 then Failure(NotThreeParts(line))
      else
        match FirstMeasure(parts[1], Measures)
        case None => Failure(NoMeasure(line))
        case Some(measurement) =>
          Success(Some(Datapoint(measurement, timestamp, GetNumeric(parts[1]), GetNumeric(parts[2]))))
  }

  /**
   * A timestamped line with a TX and an RX part gives the first measurement
   * named in its TX part, its timestamp and the first number of each part,
   * or fails when the TX part names no measurement.
   */
  lemma DatapointOfTrxLine(strptime: string -> Option<Time>, front: string, tx: string, rx: string)
    requires NoX(front) && NoX(tx) && NoX(rx)
    requires GetTimestamp(strptime, TrxLine(front, tx, rx)).Some?
    ensures var line := TrxLine(front, tx, rx);
      GetDatapoint(strptime, line) ==
        match FirstMeasure(tx, Measures)
        case None => Failure(NoMeasure(line))
        case Some(m) => Success(Some(Datapoint(m, GetTimestamp(strptime, line).value, GetNumeric(tx), GetNumeric(rx))))
  {
    TrxSplitRoundTrip(front, tx, rx);
  }

  /** A timestamped line without TX and RX markers stops the parse. */
  lemma LineWithoutMarkersFails(strptime: string -> Option<Time>, line: string)
    requires NoX(line) && GetTimestamp(strptime, line).Some?
    ensures GetDatapoint(strptime, line) == Failure(NotThreeParts(line))
  {
    SplitWithoutX(line);
  }

  /** The lines that carry a timestamp, in order. */
  function Timestamped(strptime: string -> Option<Time>, lines: seq<string>): (kept: seq<string>)
    ensures |kept| <= |lines|
  {
    if |lines| == 0 then []
    else
      var last := lines[|lines| - 1];
      Timestamped(strptime, lines[..|lines| - 1]) + (if GetTimestamp(strptime, last).Some? then [last] else [])
  }

  /**
   * The datapoints of a file: one per timestamped line, in order, or the
   * error of the first timestamped line that cannot be parsed.
   */
  function GetDatapoints(strptime: string -> Option<Time>, lines: seq<string>): (r: Result<seq<Datapoint>, DatapointError>)
    ensures r.Success? ==> |r.value| <= |lines|
  {
    if |lines| == 0 then Success([])
    else
      match GetDatapoints(strptime, lines[..|lines| - 1])
      case Failure(e) => Failure(e)
      case Success(points) =>
        match GetDatapoint(strptime, lines[|lines| - 1])
        case Failure(e) => Failure(e)
        case Success(None) => Success(points)
        case Success(Some(point)) => Success(points + [point])
  }

  /** A line is skipped exactly when it has no timestamp. */
  lemma SkippedIffNoTimestamp(strptime: string -> Option<Time>, line: string)
    ensures GetDatapoint(strptime, line) == Success(None) <==> GetTimestamp(strptime, line).None?
  {
  }

  /**
   * When no line fails, the datapoints are those of the timestamped lines,
   * one each and in order; lines without a timestamp are skipped.
   */
  lemma {:induction false} DatapointsOfTimestampedLines(strptime: string -> Option<Time>, lines: seq<string>)
    requires GetDatapoints(strptime, lines).Success?
    ensures var points := GetDatapoints(strptime, lines).value;
      && |points| == |Timestamped(strptime, lines)|
      && forall k :: 0 <= k < |points| ==>
           GetDatapoint(strptime, Timestamped(strptime, lines)[k]) == Success(Some(points[k]))
  {
    if |lines| > 0 {
      var init := lines[..|lines| - 1];
      var last := lines[|lines| - 1];
      DatapointsOfTimestampedLines(strptime, init);
      SkippedIffNoTimestamp(strptime, last);
      var before := Timestamped(strptime, init);
      assert Timestamped(strptime, lines) == before + (if GetTimestamp(strptime, last).Some? then [last] else []);
    }
  }

  /** The parse fails exactly when some line fails. */
  lemma {:induction false} DatapointsFailOnBadLine(strptime: string -> Option<Time>, lines: seq<string>)
    ensures GetDatapoints(strptime, lines).Failure?
      <==> exists i :: 0 <= i < |lines| && GetDatapoint(strptime, lines[i]).Failure?
  {
    if |lines| > 0 {
      var init := lines[..|lines| - 1];
      DatapointsFailOnBadLine(strptime, init);
      assert forall i :: 0 <= i < |init| ==> init[i] == lines[i];
    }
  }

  /** A failed parse reports the error of the first line that fails. */
  lemma {:induction false} DatapointsFailAtFirstBadLine(strptime: string -> Option<Time>, lines: seq<string>)
    requires GetDatapoints(strptime, lines).Failure?
    ensures exists i :: (0 <= i < |lines| && GetDatapoint(strptime, lines[i]) == Failure(GetDatapoints(strptime, lines).error)
                         && forall j :: 0 <= j < i ==> GetDatapoint(strptime, lines[j]).Success?)
  {
    var init := lines[..|lines| - 1];
    var last := |lines| - 1;
    assert forall i :: 0 <= i < |init| ==> init[i] == lines[i];
    if GetDatapoints(strptime, init).Failure? {
      DatapointsFailAtFirstBadLine(strptime, init);
    } else {
      DatapointsFailOnBadLine(strptime, init);
      assert GetDatapoint(strptime, lines[last]) == Failure(GetDatapoints(strptime, lines).error);
    }
  }
}
