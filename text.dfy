/** The few pieces of Rust's string handling that the parsers rely on:
    `str::parse` for decimal integers, `split_once`, `split_whitespace` and
    `trim`. Only ASCII whitespace (space, tab, line feed, carriage return) is
    treated as whitespace. */
module Text {
  import opened Wrappers

  predicate IsDigit(c: char) {
    '0' <= c <= '9'
  }

  predicate IsWhitespace(c: char) {
    c == ' ' || c == '\t' || c == '\n' || c == '\r'
  }

  predicate AllDigits(s: string) {
    forall i :: 0 <= i < |s| ==> IsDigit(s[i])
  }

  function DigitValue(c: char): (d: nat)
    requires IsDigit(c)
    ensures d < 10
  {
    c as int - '0' as int
  }

  function DigitChar(d: nat): (c: char)
    requires d < 10
    ensures IsDigit(c) && DigitValue(c) == d
  {
    ('0' as int + d) as char
  }

  /** The value of a string of decimal digits, most significant first. */
  function DigitsValue(s: string): nat
    requires AllDigits(s)
  {
    if s == [] then 0 else DigitsValue(s[..|s| - 1]) * 10 + DigitValue(s[|s| - 1])
  }

  /** `s.parse::<uN>()`: an optional '+' followed by at least one digit. */
  function ParseNat(s: string): (r: Option<nat>)
    ensures r.Some? ==> |s| > 0
    ensures r.Some? <==> (var t := if |s| > 0 && s[0] == '+' then s[1..] else s; |t| > 0 && AllDigits(t))
  {
    var t := if |s| > 0 && s[0] == '+' then s[1..] else s;
    if |t| > 0 && AllDigits(t) then Some(DigitsValue(t)) else None
  }

  /** `s.parse::<iN>()`: an optional sign followed by at least one digit. */
  function ParseInt(s: string): (r: Option<int>)
    ensures r.Some? ==> |s| > 0
  {
    if |s| > 0 && s[0] == '-' then
      (if |s| > 1 && AllDigits(s[1..]) then Some(0 - DigitsValue(s[1..]) as int) else None)
    else
      match ParseNat(s)
      case Some(n) => Some(n)
      case None => None
  }

  /** The decimal rendering of a natural number, without leading zeros. */
  function NatToString(n: nat): (s: string)
    ensures |s| > 0 && AllDigits(s)
    ensures s[0] != '+' && s[0] != '-'
  {
    if n < 10 then [DigitChar(n)] else NatToString(n / 10) + [DigitChar(n % 10)]
  }

  function IntToString(i: int): (s: string)
    ensures |s| > 0
  {
    if i < 0 then "-" + NatToString(-i) else NatToString(i)
  }

  lemma {:induction false} DigitsValueOfNatToString(n: nat)
    ensures DigitsValue(NatToString(n)) == n
  {
    var s := NatToString(n);
    if n >= 10 {
      assert s[..|s| - 1] == NatToString(n / 10);
      DigitsValueOfNatToString(n / 10);
    }
  }

  /** Printing a number and parsing it back gives the number. */
  lemma ParseNatOfNatToString(n: nat)
    ensures ParseNat(NatToString(n)) == Some(n)
  {
    DigitsValueOfNatToString(n);
  }

  lemma ParseIntOfIntToString(i: int)
    ensures ParseInt(IntToString(i)) == Some(i)
  {
    if i < 0 {
      var s := IntToString(i);
      assert s[1..] == NatToString(-i);
      DigitsValueOfNatToString(-i);
    } else {
      ParseNatOfNatToString(i);
    }
  }

  /** `s.split_once(c)`: the parts before and after the first `c`. */
  function SplitOnce(s: string, c: char): (r: Option<(string, string)>)
    ensures r.Some? ==> s == r.value.0 + [c] + r.value.1 && c !in r.value.0
    ensures r.None? ==> c !in s
  {
    if s == [] then None
    else if s[0] == c then Some(([], s[1..]))
    else match SplitOnce(s[1..], c)
      case None => None
      case Some(p) => Some(([s[0]] + p.0, p.1))
  }

  /** Splitting at the first `c` finds the first `c`. */
  lemma {:induction false} SplitOnceAt(a: string, c: char, b: string)
    requires c !in a
    ensures SplitOnce(a + [c] + b, c) == Some((a, b))
  {
    if a == [] {
      assert a + [c] + b == [c] + b;
    } else {
      assert (a + [c] + b)[1..] == a[1..] + [c] + b;
      SplitOnceAt(a[1..], c, b);
      assert [a[0]] + a[1..] == a;
    }
  }

  /** `s.split(sep)` for the two-character separator `[a, b]`: the pieces
      between separators, matched left to right without overlap. */
  function SplitPair(s: string, a: char, b: char): (r: seq<string>)
    ensures |r| >= 1
  {
    if s == [] then [""]
    else if |s| >= 2 && s[0] == a && s[1] == b then [""] + SplitPair(s[2..], a, b)
    else
      var rest := SplitPair(s[1..], a, b);
      [[s[0]] + rest[0]] + rest[1..]
  }

  function JoinPair(parts: seq<string>, a: char, b: char): string
    requires |parts| >= 1
  {
    if |parts| == 1 then parts[0] else parts[0] + [a, b] + JoinPair(parts[1..], a, b)
  }

  /** Putting the pieces back with the separators gives the input. */
  lemma {:induction false} JoinPairOfSplitPair(s: string, a: char, b: char)
    ensures JoinPair(SplitPair(s, a, b), a, b) == s
  {
    if s == [] {
    } else if |s| >= 2 && s[0] == a && s[1] == b {
      JoinPairOfSplitPair(s[2..], a, b);
      assert SplitPair(s, a, b)[1..] == SplitPair(s[2..], a, b);
      assert s == "" + [a, b] + s[2..];
    } else {
      var rest := SplitPair(s[1..], a, b);
      JoinPairOfSplitPair(s[1..], a, b);
      JoinPairCons(s[0], rest, a, b);
      assert s == [s[0]] + s[1..];
    }
  }

  /** A character put in front of the first piece comes out in front. */
  lemma JoinPairCons(c: char, parts: seq<string>, a: char, b: char)
    requires |parts| >= 1
    ensures JoinPair([[c] + parts[0]] + parts[1..], a, b) == [c] + JoinPair(parts, a, b)
  {
    var r := [[c] + parts[0]] + parts[1..];
    assert r[0] == [c] + parts[0] && r[1..] == parts[1..];
    if |parts| > 1 {
      assert JoinPair(r, a, b) == ([c] + parts[0]) + [a, b] + JoinPair(parts[1..], a, b);
    }
  }

  /** A line without its trailing carriage return. */
  function StripCr(line: string): (r: string)
    ensures r == line || (line == r + ['\r'])
  {
    if line != [] && line[|line| - 1] == '\r' then line[..|line| - 1] else line
  }

  /** `s.lines()`: the pieces between line feeds, each without a trailing
      carriage return; a final line feed does not start another line. */
  function Lines(s: string): (r: seq<string>)
    ensures forall k :: 0 <= k < |r| ==> '\n' !in r[k]
    decreases |s|
  {
    match SplitOnce(s, '\n')
    case None => if s == [] then [] else [StripCr(s)]
    case Some((a, b)) => [StripCr(a)] + Lines(b)
  }

  predicate IsLine(line: string) {
    '\n' !in line && (line == [] || line[|line| - 1] != '\r')
  }

  /** Each line followed by a line feed. */
  function JoinLines(lines: seq<string>): string {
    if lines == [] then [] else lines[0] + "\n" + JoinLines(lines[1..])
  }

  /** Splitting text written line by line gives back the lines. */
  lemma {:induction false} LinesOfJoinLines(lines: seq<string>)
    requires forall k :: 0 <= k < |lines| ==> IsLine(lines[k])
    ensures Lines(JoinLines(lines)) == lines
  {
    if lines != [] {
      SplitOnceAt(lines[0], '\n', JoinLines(lines[1..]));
      assert lines[0] + "\n" + JoinLines(lines[1..]) == lines[0] + ['\n'] + JoinLines(lines[1..]);
      LinesOfJoinLines(lines[1..]);
    }
  }

  /** `s.trim()`: `s` without leading and trailing whitespace. */
  function TrimStart(s: string): (r: string)
    ensures |r| <= |s| && r == s[|s| - |r|..]
    ensures r == [] || !IsWhitespace(r[0])
  {
    if s != [] && IsWhitespace(s[0]) then TrimStart(s[1..]) else s
  }

  function TrimEnd(s: string): (r: string)
    ensures |r| <= |s| && r == s[..|r|]
    ensures r == [] || !IsWhitespace(r[|r| - 1])
  {
    if s != [] && IsWhitespace(s[|s| - 1]) then TrimEnd(s[..|s| - 1]) else s
  }

  function Trim(s: string): string {
    TrimEnd(TrimStart(s))
  }

  /** A string without whitespace is its own trim. */
  lemma TrimOfNoWhitespace(s: string)
    requires forall i :: 0 <= i < |s| ==> !IsWhitespace(s[i])
    ensures Trim(s) == s
  {
  }

  /** The length of the leading run of non-whitespace characters. */
  function WordLength(s: string): (n: nat)
    ensures n <= |s|
    ensures forall i :: 0 <= i < n ==> !IsWhitespace(s[i])
    ensures n == |s| || IsWhitespace(s[n])
  {
    if s == [] || IsWhitespace(s[0]) then 0 else 1 + WordLength(s[1..])
  }

  /** `s.split_whitespace()`: the maximal runs of non-whitespace characters. */
  function SplitWhitespace(s: string): (words: seq<string>)
    ensures forall k :: 0 <= k < |words| ==> |words[k]| > 0
    decreases |s|
  {
    var t := TrimStart(s);
    if t == [] then []
    else
      var n := WordLength(t);
      [t[..n]] + SplitWhitespace(t[n..])
  }

  predicate IsWord(w: string) {
    |w| > 0 && forall i :: 0 <= i < |w| ==> !IsWhitespace(w[i])
  }

  /** Words joined with single spaces. */
  function JoinWords(words: seq<string>): string {
    if words == [] then [] else if |words| == 1 then words[0] else words[0] + " " + JoinWords(words[1..])
  }

  lemma {:induction false} WordLengthOfWord(w: string, rest: string)
    requires IsWord(w)
    requires rest == [] || IsWhitespace(rest[0])
    ensures WordLength(w + rest) == |w|
  {
    if |w| > 1 {
      assert (w + rest)[1..] == w[1..] + rest;
      WordLengthOfWord(w[1..], rest);
    } else {
      assert (w + rest)[1..] == rest;
    }
  }

  /** Splitting words joined by spaces gives the words back. */
  lemma {:induction false} SplitWhitespaceOfJoinWords(words: seq<string>)
    requires forall k :: 0 <= k < |words| ==> IsWord(words[k])
    ensures SplitWhitespace(JoinWords(words)) == words
  {
    if words == [] {
    } else if |words| == 1 {
      var s := words[0];
      assert TrimStart(s) == s;
      assert s == s + [];
      WordLengthOfWord(s, []);
      assert s[..|s|] == s;
      assert s[|s|..] == [];
    } else {
      var rest := " " + JoinWords(words[1..]);
      var s := words[0] + rest;
      assert s == JoinWords(words);
      assert TrimStart(s) == s;
      WordLengthOfWord(words[0], rest);
      assert s[..|words[0]|] == words[0];
      assert s[|words[0]|..] == rest;
      var r := JoinWords(words[1..]);
      assert r == [] || !IsWhitespace(r[0]) by {
        if |words[1..]| == 1 {
        } else {
          assert r == words[1] + " " + JoinWords(words[2..]);
          assert r[0] == words[1][0];
        }
      }
      assert TrimStart(rest) == TrimStart(r);
      assert TrimStart(r) == r;
      SplitWhitespaceOfJoinWords(words[1..]);
    }
  }
}
