/** Balanced base-5 ("SNAFU") numerals: digits '=', '-', '0', '1', '2' stand
    for -2, -1, 0, 1 and 2, most significant digit first. */
module Day25 {
  import opened Arith
  import Text

  function Pow5(e: nat): (p: nat)
    ensures p >= 1
  {
    if e == 0 then 1 else 5 * Pow5(e - 1)
  }

  /** `5^e / 2`, the largest magnitude that e balanced digits can reach. */
  function Half(e: nat): nat {
    if e == 0 then 0 else 5 * Half(e - 1) + 2
  }

  lemma {:induction false} PowIsOdd(e: nat)
    ensures Pow5(e) == 2 * Half(e) + 1
    ensures Pow5(e) / 2 == Half(e)
  {
    if e > 0 {
      PowIsOdd(e - 1);
    }
  }

  predicate IsSnafuChar(c: char) {
    c == '0' || c == '1' || c == '2' || c == '=' || c == '-'
  }

  predicate IsSnafu(s: string) {
    forall i :: 0 <= i < |s| ==> IsSnafuChar(s[i])
  }

  /** No leading zero and a positive leading digit: the form the encoder produces. */
  predicate IsCanonical(s: string) {
    IsSnafu(s) && (s == [] || s[0] == '1' || s[0] == '2')
  }

  /** `convert_digit_to_snafu_digit`: a base-5 digit of the shifted value. Other
      inputs reach `unimplemented!`. */
  function DigitToSnafu(d: nat): (c: char)
    requires d < 5
    ensures IsSnafuChar(c)
  {
    match d
    case 0 => '0'
    case 1 => '1'
    case 2 => '2'
    case 3 => '='
    case 4 => '-'
  }

  /** `convert_snafu_digit_to_digit`. Other characters reach `unimplemented!`. */
  function SnafuToDigit(c: char): (v: int)
    requires IsSnafuChar(c)
    ensures -2 <= v <= 2
  {
    match c
    case '0' => 0
    case '1' => 1
    case '2' => 2
    case '=' => -2
    case '-' => -1
  }

  /** Decoding the digit map's output gives d for d <= 2 and d - 5 for 3 and 4. */
  lemma DigitMapsAgree(d: nat)
    requires d < 5
    ensures SnafuToDigit(DigitToSnafu(d)) == if d <= 2 then d else d - 5
  {
  }

  /** The value of a numeral: the sum of digit * 5^position, positions counted
      from the right. */
  function SnafuValue(s: string): int
    requires IsSnafu(s)
  {
    if s == [] then 0 else SnafuToDigit(s[0]) * Pow5(|s| - 1) + SnafuValue(s[1..])
  }

  lemma {:induction false} SnafuValueAppend(s: string, c: char)
    requires IsSnafu(s) && IsSnafuChar(c)
    ensures IsSnafu(s + [c])
    ensures SnafuValue(s + [c]) == 5 * SnafuValue(s) + SnafuToDigit(c)
  {
    assert IsSnafu(s + [c]);
    if s != [] {
      assert (s + [c])[1..] == s[1..] + [c];
      SnafuValueAppend(s[1..], c);
    }
  }

  /** e digits reach at most Half(e) in magnitude. */
  lemma {:induction false} SnafuValueBound(s: string)
    requires IsSnafu(s)
    ensures -(Half(|s|) as int) <= SnafuValue(s) <= Half(|s|)
  {
    if s != [] {
      SnafuValueBound(s[1..]);
      PowIsOdd(|s| - 1);
    }
  }

  /** A canonical non-empty numeral has a positive value. */
  lemma CanonicalIsPositive(s: string)
    requires IsCanonical(s) && s != []
    ensures SnafuValue(s) > 0
  {
    SnafuValueBound(s[1..]);
    PowIsOdd(|s| - 1);
  }

  /** The reference encoding: the canonical numeral of n, built from the last
      digit up. */
  function Encode(n: nat): (s: string)
    ensures IsCanonical(s)
    ensures SnafuValue(s) == n
    decreases n
  {
    if n == 0 then []
    else
      var q := (n + 2) / 5;
      var c := DigitToSnafu(n % 5);
      SnafuValueAppend(Encode(q), c);
      Encode(q) + [c]
  }

  /** Every canonical numeral is the encoding of its value: decoding and
      re-encoding gives the numeral back. */
  lemma {:induction false} EncodeOfSnafuValue(s: string)
    requires IsCanonical(s)
    ensures SnafuValue(s) >= 0 && Encode(SnafuValue(s)) == s
  {
    if s != [] {
      var init, c := s[..|s| - 1], s[|s| - 1];
      assert s == init + [c];
      assert IsSnafu(init);
      SnafuValueAppend(init, c);
      CanonicalIsPositive(s);
      var v := SnafuValue(init);
      if init != [] {
        assert IsCanonical(init) by {
          assert init[0] == s[0];
        }
        EncodeOfSnafuValue(init);
      }
      LastDigitOf(v, c);
      assert Encode(SnafuValue(s)) == Encode(v) + [c];
    }
  }

  /** The last digit of 5v + digit(c) is c, and what is left is v. */
  lemma LastDigitOf(v: int, c: char)
    requires IsSnafuChar(c)
    ensures (5 * v + SnafuToDigit(c) + 2) / 5 == v
    ensures DigitToSnafu((5 * v + SnafuToDigit(c)) % 5) == c
  {
    var sd := SnafuToDigit(c);
    DivModUnique(5 * v + sd + 2, 5, v, sd + 2);
    if sd < 0 {
      DivModUnique(5 * v + sd, 5, v - 1, sd + 5);
    } else {
      DivModUnique(5 * v + sd, 5, v, sd);
    }
  }

  /** Two canonical numerals with the same value are equal. */
  lemma CanonicalUnique(s: string, t: string)
    requires IsCanonical(s) && IsCanonical(t)
    requires SnafuValue(s) == SnafuValue(t)
    ensures s == t
  {
    EncodeOfSnafuValue(s);
    EncodeOfSnafuValue(t);
  }

  /** The digit of x at position p: x % 5p splits into that digit times p and x % p. */
  lemma DigitSplit(x: int, p: int) returns (q5: int, d: int)
    requires x >= 0 && p > 0
    ensures 0 <= d < 5 && d == (x % (5 * p)) / p
    ensures x == (5 * q5 + d) * p + x % p
  {
    var m := 5 * p;
    q5 := x / m;
    var y := x % m;
    d := y / p;
    var r := y % p;
    assert y == d * p + r;
    if d >= 5 {
      MulAtLeast(d - 4, p);
      assert false;
    }
    assert 0 <= d;
    assert x == q5 * m + y;
    assert (5 * q5 + d) * p == q5 * m + d * p;
    DivModUnique(x, p, 5 * q5 + d, r);
  }

  /** One step of the encoder's loop: with x = input + 5^e/2, p = 5^e and
      h = 5^e/2, the new digit extends the balanced remainder from e to e + 1
      digits. */
  lemma EncoderStep(x: int, p: int, h: int)
    requires x >= 0 && p == 2 * h + 1 && h >= 0
    ensures 0 <= (x % (5 * p)) / p < 5
    ensures var d := (x % (5 * p)) / p;
      (if d <= 2 then d else d - 5) * p + (x % p - h) == (x + 2 * p) % (5 * p) - (h + 2 * p)
  {
    var q5, d := DigitSplit(x, p);
    var r := x % p;
    var m := 5 * p;
    assert (5 * q5 + d) * p == q5 * m + d * p;
    if d + 2 < 5 {
      var low := (d + 2) * p + r;
      assert low == d * p + 2 * p + r;
      MulMonotone(d + 2, 4, p);
      DivModUnique(x + 2 * p, m, q5, low);
    } else {
      var low := (d - 3) * p + r;
      assert low == d * p - 3 * p + r;
      MulMonotone(d - 3, 1, p);
      assert (q5 + 1) * m == q5 * m + m;
      DivModUnique(x + 2 * p, m, q5 + 1, low);
      assert (d - 5) * p == d * p - 5 * p;
    }
  }

  /** One round of the encoder's loop keeps its invariants: the new digit,
      put in front, extends the balanced remainder by one digit, and in the
      last round it is a 1 or a 2. */
  lemma PrependDigit(input: nat, e: nat, result: string, d: int)
    requires |result| == e && IsSnafu(result)
    requires SnafuValue(result) == (input + Half(e)) % Pow5(e) - Half(e)
    requires Pow5(e) <= input + Half(e)
    requires d == ((input + Half(e)) % Pow5(e + 1)) / Pow5(e)
    ensures 0 <= d < 5
    ensures IsSnafu([DigitToSnafu(d)] + result)
    ensures SnafuValue([DigitToSnafu(d)] + result) == (input + Half(e + 1)) % Pow5(e + 1) - Half(e + 1)
    ensures Pow5(e + 1) > input + Half(e + 1) ==> d == 1 || d == 2
  {
    PowIsOdd(e);
    PowIsOdd(e + 1);
    var p, h := Pow5(e), Half(e);
    var x := input + h;
    EncoderStep(x, p, h);
    DigitMapsAgree(d);
    var c := DigitToSnafu(d);
    var s := [c] + result;
    assert s[1..] == result && s[0] == c;
    assert SnafuValue(s) == SnafuToDigit(c) * p + SnafuValue(result);
    if Pow5(e + 1) > input + Half(e + 1) {
      DivModUnique(x, 5 * p, 0, x);
      if x < 2 * p {
        DivModUnique(x, p, 1, x - p);
      } else {
        DivModUnique(x, p, 2, x - 2 * p);
      }
    }
  }

  /** `convert_into_snafu`: the canonical numeral of `input`, found digit by
      digit from the right while 5^e <= input + 5^e / 2. */
  method ConvertIntoSnafu(input: nat) returns (result: string)
    ensures IsCanonical(result) && SnafuValue(result) == input
    ensures result == Encode(input)
    ensures result == [] <==> input == 0
  {
    var e: nat := 0;
    result := [];
    while Pow5(e) <= input + Pow5(e) / 2
      invariant |result| == e && IsSnafu(result)
      invariant SnafuValue(result) == (input + Half(e)) % Pow5(e) - Half(e)
      invariant e > 0 && Pow5(e) > input + Half(e) ==> result[0] == '1' || result[0] == '2'
      decreases 2 * input + 1 - Pow5(e)
    {
      PowIsOdd(e);
      var x := input + Pow5(e) / 2;
      var digit := (x % Pow5(e + 1)) / Pow5(e);
      PrependDigit(input, e, result, digit);
      var c := DigitToSnafu(digit);
      result := [c] + result;
      e := e + 1;
    }
    PowIsOdd(e);
    DivModUnique(input + Half(e), Pow5(e), 0, input + Half(e));
    EncodeOfSnafuValue(result);
    if result != [] {
      CanonicalIsPositive(result);
    }
  }

  /** `convert_from_snafu`: the value of the trimmed numeral, accumulated from
      the right, reinterpreted from `isize` as `usize` (a negative value wraps
      modulo 2^64). A character outside the digit set reaches `unimplemented!`. */
  method ConvertFromSnafu(input: string) returns (r: nat)
    requires IsSnafu(Text.Trim(input))
    ensures r == SnafuValue(Text.Trim(input)) % 0x1_0000_0000_0000_0000
  {
    var t := Text.Trim(input);
    var result: int := 0;
    var k := 0;
    while k < |t|
      invariant 0 <= k <= |t|
      invariant result == SnafuValue(t[|t| - k..])
    {
      var c := t[|t| - 1 - k];
      assert t[|t| - 1 - k..] == [c] + t[|t| - k..];
      assert ([c] + t[|t| - k..])[1..] == t[|t| - k..];
      result := result + SnafuToDigit(c) * Pow5(k);
      k := k + 1;
    }
    assert t[|t| - k..] == t;
    r := result % 0x1_0000_0000_0000_0000;
  }

  /** Encoding a `usize` and decoding the numeral gives the number back. */
  method RoundTrip(n: nat) returns (m: nat)
    requires n < 0x1_0000_0000_0000_0000
    ensures m == n
  {
    var s := ConvertIntoSnafu(n);
    Text.TrimOfNoWhitespace(s);
    m := ConvertFromSnafu(s);
  }
}
