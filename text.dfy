/**
 * The parts of Python's `str` that the timeplots parsers rely on:
 * `split()` with no argument, `" ".join`, `startswith`, `endswith`,
 * `in`, `replace`, `isnumeric` and `int`.
 */
module Text {
  import opened Wrappers

  /** The characters for which Python's `str.isspace()` is true. */
  predicate IsSpace(c: char) {
    || c == ' '
    || '\t' <= c <= '\r'
    || '\U{1c}' <= c <= '\U{1f}'
    || c == '\U{85}' || c == '\U{a0}' || c == '\U{1680}'
    || '\U{2000}' <= c <= '\U{200a}'
    || c == '\U{2028}' || c == '\U{2029}' || c == '\U{202f}' || c == '\U{205f}' || c == '\U{3000}'
  }

  /** A word as `split()` produces it: non-empty and free of whitespace. */
  predicate IsWord(w: string) {
    |w| > 0 && forall i :: 0 <= i < |w| ==> !IsSpace(w[i])
  }

  /** Length of the run of non-whitespace characters that starts `s`. */
  function WordLength(s: string): (n: nat)
    ensures n <= |s|
    ensures forall i :: 0 <= i < n ==> !IsSpace(s[i])
    ensures n == |s| || IsSpace(s[n])
  {
    if |s| == 0 || IsSpace(s[0]) then 0 else 1 + WordLength(s[1..])
  }

  /** Python's `s.split()`: the maximal runs of non-whitespace characters, in order. */
  function Split(s: string): (words: seq<string>)
    ensures forall i :: 0 <= i < |words| ==> IsWord(words[i])
    decreases |s|
  {
    if |s| == 0 then []
    else if IsSpace(s[0]) then Split(s[1..])
    else
      var n := WordLength(s);
      [s[..n]] + Split(s[n..])
  }

  /** Python's `sep.join(words)`. */
  function Join(words: seq<string>, sep: string): string {
    if |words| == 0 then ""
    else if |words| == 1 then words[0]
    else words[0] + sep + Join(words[1..], sep)
  }

  /** A word followed by nothing or by whitespace splits off as one word. */
  lemma {:induction false} SplitLeadingWord(w: string, tail: string)
    requires IsWord(w)
    requires tail == [] || IsSpace(tail[0])
    ensures Split(w + tail) == [w] + Split(tail)
  {
    WordLengthOfWord(w, tail);
    assert (w + tail)[..|w|] == w;
    assert (w + tail)[|w|..] == tail;
  }

  lemma {:induction false} WordLengthOfWord(w: string, tail: string)
    requires forall i :: 0 <= i < |w| ==> !IsSpace(w[i])
    requires tail == [] || IsSpace(tail[0])
    ensures WordLength(w + tail) == |w|
    decreases |w|
  {
    if |w| > 0 {
      assert (w + tail)[1..] == w[1..] + tail;
      WordLengthOfWord(w[1..], tail);
    }
  }

  /** Splitting words joined by single spaces gives the words back. */
  lemma {:induction false} SplitJoin(words: seq<string>)
    requires forall i :: 0 <= i < |words| ==> IsWord(words[i])
    ensures Split(Join(words, " ")) == words
  {
    if |words| == 1 {
      SplitLeadingWord(words[0], "");
      assert words[0] + "" == words[0];
    } else if |words| > 1 {
      var rest := Join(words[1..], " ");
      SplitLeadingWord(words[0], " " + rest);
      assert words[0] + " " + rest == words[0] + (" " + rest);
      assert (" " + rest)[1..] == rest;
      SplitJoin(words[1..]);
      assert words == [words[0]] + words[1..];
    }
  }

  /** Python's `s.startswith(prefix)`. */
  predicate StartsWith(s: string, prefix: string) {
    |prefix| <= |s| && s[..|prefix|] == prefix
  }

  /** Python's `s.endswith(suffix)`. */
  predicate EndsWith(s: string, suffix: string) {
    |suffix| <= |s| && s[|s| - |suffix|..] == suffix
  }

  /** Python's `needle in s`. */
  predicate Contains(s: string, needle: string)
    decreases |s|
  {
    StartsWith(s, needle) || (|s| > 0 && Contains(s[1..], needle))
  }

  /** Python's `s.replace(pattern, replacement)`: every non-overlapping occurrence, scanning from the left. */
  function Replace(s: string, pattern: string, replacement: string): string
    requires |pattern| > 0
    decreases |s|
  {
    if StartsWith(s, pattern) then replacement + Replace(s[|pattern|..], pattern, replacement)
    else if |s| == 0 then ""
    else [s[0]] + Replace(s[1..], pattern, replacement)
  }

  lemma SlicesAround(a: string, c: char, b: string, n: nat)
    requires n <= |a|
    ensures (a + [c] + b)[n..] == a[n..] + [c] + b
  {
  }

  /** A pattern without `c` starts `a + [c] + b` exactly when it starts `a`. */
  lemma StartsAround(a: string, c: char, b: string, pattern: string)
    requires c !in pattern
    ensures StartsWith(a + [c] + b, pattern) <==> StartsWith(a, pattern)
  {
    var s := a + [c] + b;
    if |pattern| <= |a| {
      assert s[..|pattern|] == a[..|pattern|];
    } else {
      assert |pattern| <= |s| ==> s[..|pattern|][|a|] == c;
    }
  }

  /**
   * No occurrence of a pattern can straddle a character the pattern does not contain,
   * so replacing around such a character is replacing on each side of it.
   */
  lemma {:induction false} ReplaceAround(a: string, c: char, b: string, pattern: string, replacement: string)
    requires |pattern| > 0 && c !in pattern
    ensures Replace(a + [c] + b, pattern, replacement) == Replace(a, pattern, replacement) + [c] + Replace(b, pattern, replacement)
    decreases |a|
  {
    StartsAround(a, c, b, pattern);
    if StartsWith(a, pattern) {
      SlicesAround(a, c, b, |pattern|);
      ReplaceAround(a[|pattern|..], c, b, pattern, replacement);
    } else if |a| == 0 {
      assert a + [c] + b == [c] + b;
    } else {
      SlicesAround(a, c, b, 1);
      ReplaceAround(a[1..], c, b, pattern, replacement);
    }
  }

  /** The pattern on its own is replaced entirely. */
  lemma ReplaceWhole(pattern: string, replacement: string)
    requires |pattern| > 0
    ensures Replace(pattern, pattern, replacement) == replacement
  {
    assert StartsWith(pattern, pattern);
    assert pattern[|pattern|..] == "";
  }

  /** Python's `s[:-1]`. */
  function DropLast(s: string): (r: string)
    ensures |s| > 0 ==> s == r + [s[|s| - 1]]
    ensures |s| == 0 ==> r == ""
  {
    if |s| == 0 then "" else s[..|s| - 1]
  }

  predicate IsDigit(c: char) {
    '0' <= c <= '9'
  }

  /** Python's `s.isnumeric()`, restricted to the ASCII digits. */
  predicate IsNumeric(s: string) {
    |s| > 0 && forall i :: 0 <= i < |s| ==> IsDigit(s[i])
  }

  /** The value of a string of decimal digits. */
  function DigitsValue(s: string): nat
    requires forall i :: 0 <= i < |s| ==> IsDigit(s[i])
  {
    if |s| == 0 then 0
    else
      assert IsDigit(s[|s| - 1]);
      10 * DigitsValue(s[..|s| - 1]) + (s[|s| - 1] as int - '0' as int)
  }

  /** Decimal notation of a natural number, without leading zeros. */
  function ShowNat(n: nat): (s: string)
    ensures IsNumeric(s)
  {
    var d := ['0' + ((n % 10) as char)];
    if n < 10 then d else ShowNat(n / 10) + d
  }

  /** Reading back the decimal notation gives the number. */
  lemma {:induction false} DigitsValueShowNat(n: nat)
    ensures DigitsValue(ShowNat(n)) == n
  {
    var s := ShowNat(n);
    if n >= 10 {
      DigitsValueShowNat(n / 10);
      assert s[..|s| - 1] == ShowNat(n / 10);
    }
  }

  /** Python's `int(s)` for an optional sign followed by decimal digits; `None` where it raises. */
  function ParseInt(s: string): (r: Option<int>)
    ensures r.Some? <==> IsNumeric(s) || (|s| > 1 && (s[0] == '+' || s[0] == '-') && IsNumeric(s[1..]))
  {
    if IsNumeric(s) then Some(DigitsValue(s) as int)
    else if |s| > 1 && s[0] == '+' && IsNumeric(s[1..]) then Some(DigitsValue(s[1..]) as int)
    else if |s| > 1 && s[0] == '-' && IsNumeric(s[1..]) then Some(-(DigitsValue(s[1..]) as int))
    else None
  }

  /** `int` reads back what `ShowNat` writes, and a minus sign negates it. */
  lemma ParseIntShowNat(n: nat)
    ensures ParseInt(ShowNat(n)) == Some(n as int)
    ensures ParseInt("-" + ShowNat(n)) == Some(-(n as int))
  {
    DigitsValueShowNat(n);
    var s := ShowNat(n);
    assert ("-" + s)[1..] == s;
    assert !IsNumeric("-" + s) by { assert !IsDigit(("-" + s)[0]); }
  }
}
