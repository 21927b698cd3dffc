/** Character and string primitives shared by the parsers and renderers:
    decimal rendering and parsing, zero padding, whitespace trimming in the
    Rust and the C++ sense, searching and splitting. */
module Text {
  import opened Wrappers

  const I32Min: int := -0x8000_0000
  const I32Max: int := 0x7FFF_FFFF

  // ---------------------------------------------------------------------------
  // Digits

  predicate IsDigit(c: char) { '0' <= c <= '9' }

  predicate AllDigits(s: string) { forall i :: 0 <= i < |s| ==> IsDigit(s[i]) }

  function DigitValue(c: char): nat
    requires IsDigit(c)
  {
    c as int - '0' as int
  }

  function DigitChar(d: nat): (c: char)
    requires d < 10
    ensures IsDigit(c) && DigitValue(c) == d
  {
    (d + '0' as int) as char
  }

  function Pow10(n: nat): (p: nat)
    ensures p >= 1
  {
    if n == 0 then 1 else 10 * Pow10(n - 1)
  }

  /** Value of a string of decimal digits, most significant first. */
  function DigitsValue(s: string): nat
    requires AllDigits(s)
  {
    if s == [] then 0 else DigitsValue(s[..|s| - 1]) * 10 + DigitValue(s[|s| - 1])
  }

  /** Decimal rendering of a natural number without leading zeros. */
  function NatToString(n: nat): (s: string)
    ensures 1 <= |s| && AllDigits(s)
    ensures s[0] == '0' ==> n == 0
    ensures n < 10 ==> |s| == 1
    ensures n < 100 ==> |s| <= 2
    ensures n >= 10 ==> |s| >= 2
  {
    if n < 10 then [DigitChar(n)] else NatToString(n / 10) + [DigitChar(n % 10)]
  }

  lemma {:induction false} NatToStringValue(n: nat)
    ensures DigitsValue(NatToString(n)) == n
  {
    var s := NatToString(n);
    if n >= 10 {
      NatToStringValue(n / 10);
      assert s[..|s| - 1] == NatToString(n / 10);
    }
  }

  /** Decimal rendering of a signed integer, as `{}` and `<<` print it. */
  function IntToString(i: int): (s: string)
    ensures 1 <= |s|
  {
    if i < 0 then "-" + NatToString(-i) else NatToString(i)
  }

  function Zeros(k: nat): (z: string)
    ensures |z| == k && AllDigits(z)
    ensures forall i :: 0 <= i < k ==> z[i] == '0'
  {
    seq(k, _ => '0')
  }

  /** Left-pads `s` with '0' to at least `width` characters, as `{:0w}` and
      `setfill('0') << setw(w)` do; a longer `s` is kept whole. */
  function ZeroPad(s: string, width: nat): (r: string)
    ensures |r| == if |s| < width then width else |s|
    ensures r[|r| - |s|..] == s
    ensures forall i :: 0 <= i < |r| - |s| ==> r[i] == '0'
  {
    if |s| < width then Zeros(width - |s|) + s else s
  }

  lemma {:induction false} DigitsValueAppend(a: string, b: string)
    requires AllDigits(a) && AllDigits(b)
    ensures AllDigits(a + b)
    ensures DigitsValue(a + b) == DigitsValue(a) * Pow10(|b|) + DigitsValue(b)
    decreases |b|
  {
    assert AllDigits(a + b) by {
      forall i | 0 <= i < |a + b| ensures IsDigit((a + b)[i]) {
        if i < |a| { assert (a + b)[i] == a[i]; } else { assert (a + b)[i] == b[i - |a|]; }
      }
    }
    if b == [] {
      assert a + b == a;
    } else {
      var b' := b[..|b| - 1];
      assert (a + b)[..|a + b| - 1] == a + b';
      assert (a + b)[|a + b| - 1] == b[|b| - 1];
      DigitsValueAppend(a, b');
      ShiftDigit(DigitsValue(a), Pow10(|b'|), DigitsValue(b'), DigitValue(b[|b| - 1]));
    }
  }

  lemma ShiftDigit(x: int, p: int, y: int, d: int)
    ensures (x * p + y) * 10 + d == x * (10 * p) + (y * 10 + d)
  {
  }

  lemma {:induction false} ZerosValue(k: nat)
    ensures DigitsValue(Zeros(k)) == 0
  {
    if k > 0 {
      assert Zeros(k)[..k - 1] == Zeros(k - 1);
      ZerosValue(k - 1);
    }
  }

  /** Leading zeros do not change the value of a digit string. */
  lemma ZeroPadValue(s: string, width: nat)
    requires AllDigits(s)
    ensures AllDigits(ZeroPad(s, width))
    ensures DigitsValue(ZeroPad(s, width)) == DigitsValue(s)
  {
    if |s| < width {
      DigitsValueAppend(Zeros(width - |s|), s);
      ZerosValue(width - |s|);
    }
  }

  // ---------------------------------------------------------------------------
  // Integer parsing

  function SignAndDigits(s: string): (bool, string)
  {
    if |s| > 0 && s[0] == '-' then (true, s[1..])
    else if |s| > 0 && s[0] == '+' then (false, s[1..])
    else (false, s)
  }

  /** Rust's `str::parse::<i32>`: an optional sign, then at least one digit
      and nothing else; a value outside the i32 range is an error. */
  function ParseI32(s: string): (r: Option<int>)
    ensures r.Some? ==> I32Min <= r.value <= I32Max
    ensures r.Some? ==> |s| > 0
  {
    var (neg, digits) := SignAndDigits(s);
    if |digits| == 0 || !AllDigits(digits) then None
    else
      var v: int := if neg then 0 - DigitsValue(digits) else DigitsValue(digits);
      if I32Min <= v <= I32Max then Some(v) else None
  }

  lemma ParseI32RoundTrip(v: int)
    requires I32Min <= v <= I32Max
    ensures ParseI32(IntToString(v)) == Some(v)
  {
    if v < 0 {
      NatToStringValue(-v);
      ParseI32Negative(NatToString(-v));
    } else {
      NatToStringValue(v);
      ParseI32Digits(NatToString(v));
    }
  }

  lemma ParseI32Negative(d: string)
    requires |d| > 0 && AllDigits(d) && DigitsValue(d) <= -I32Min
    ensures ParseI32("-" + d) == Some(0 - DigitsValue(d))
  {
    assert ("-" + d)[1..] == d;
  }

  /** Whitespace as C's `isspace` sees it in the "C" locale. */
  predicate IsCSpace(c: char)
  {
    c == ' ' || c == '\t' || c == '\n' || c == '\r' || c == '\U{000B}' || c == '\U{000C}'
  }

  /** Length of the longest prefix of `s` made of digits. */
  function DigitPrefixLen(s: string): (n: nat)
    ensures n <= |s| && AllDigits(s[..n])
    ensures n < |s| ==> !IsDigit(s[n])
  {
    if |s| == 0 || !IsDigit(s[0]) then 0
    else
      var n := 1 + DigitPrefixLen(s[1..]);
      assert s[..n] == [s[0]] + s[1..][..n - 1];
      n
  }

  /** C++'s `std::stoi` in base 10: leading whitespace is skipped, an optional
      sign is read, then the longest run of digits; trailing characters are
      ignored. No digit is `invalid_argument`, a value outside `int` is
      `out_of_range`; both are `None` here. */
  function Stoi(s: string): (r: Option<int>)
    ensures r.Some? ==> I32Min <= r.value <= I32Max
  {
    var t := s[LeadingCount(s, IsCSpace)..];
    var (neg, rest) := SignAndDigits(t);
    var n := DigitPrefixLen(rest);
    if n == 0 then None
    else
      var v: int := if neg then 0 - DigitsValue(rest[..n]) else DigitsValue(rest[..n]);
      if I32Min <= v <= I32Max then Some(v) else None
  }

  // ---------------------------------------------------------------------------
  // Decimal (floating-point literal) parsing

  /** Value of `[+-]? digits? ('.' digits?)?` with at least one digit, which is
      the subset of Rust's `f64` syntax the program relies on; exponents,
      `inf` and `NaN` are not part of this model. */
  function ParseDecimal(s: string): (r: Option<real>)
  {
    var (neg, body) := SignAndDigits(s);
    match IndexOf(body, '.')
    case None => DecimalOf(neg, body, "")
    case Some(d) => DecimalOf(neg, body[..d], body[d + 1..])
  }

  /** Digits alone are their value. */
  lemma DecimalWhole(whole: string)
    requires |whole| > 0 && AllDigits(whole)
    ensures ParseDecimal(whole) == Some(DigitsValue(whole) as real)
  {
    assert SignAndDigits(whole) == (false, whole);
    assert IndexOf(whole, '.') == None;
    assert AllDigits("") && DigitsValue("") == 0 && Pow10(0) == 1;
    assert DecimalOf(false, whole, "") == Some(DigitsValue(whole) as real);
  }

  /** Digits, '.', digits: the whole part plus the fraction. */
  lemma DecimalWithFraction(whole: string, frac: string)
    requires |whole| > 0 && AllDigits(whole) && AllDigits(frac)
    ensures ParseDecimal(whole + "." + frac)
      == Some(DigitsValue(whole) as real + FractionValue(frac))
  {
    assert '.' !in whole;
    DotAt(whole, frac);
    UnsignedDecimalAt(whole + "." + frac, |whole|);
    DecimalOfDigits(whole, frac);
  }

  lemma DecimalOfDigits(whole: string, frac: string)
    requires |whole| > 0 && AllDigits(whole) && AllDigits(frac)
    ensures DecimalOf(false, whole, frac)
      == Some(DigitsValue(whole) as real + FractionValue(frac))
  {
  }

  /** The first '.' of `c + "." + frac` when `c` has none. */
  lemma DotAt(c: string, frac: string)
    requires |c| > 0 && '.' !in c
    ensures var s := c + "." + frac;
      |c| < |s| && s[0] == c[0] && IndexOf(s, '.') == Some(|c|) && s[..|c|] == c && s[|c| + 1..] == frac
  {
    var s := c + "." + frac;
    assert s[..|c|] == c;
    IndexOfAt(s, '.', |c|);
    assert s[|c| + 1..] == frac;
  }

  /** An unsigned number with its first '.' at `d` is its two parts. */
  lemma UnsignedDecimalAt(s: string, d: nat)
    requires |s| > 0 && IsDigit(s[0]) && d < |s| && IndexOf(s, '.') == Some(d)
    ensures ParseDecimal(s) == DecimalOf(false, s[..d], s[d + 1..])
  {
    assert SignAndDigits(s) == (false, s);
  }

  /** The value of a fraction's digits: that many tenths, hundredths,
      thousandths... */
  function FractionValue(frac: string): (v: real)
    requires AllDigits(frac)
    ensures 0.0 <= v < 1.0
    decreases |frac|
  {
    if |frac| == 0 then 0.0 else (DigitValue(frac[0]) as real + FractionValue(frac[1..])) / 10.0
  }

  /** The value of `whole.frac`, negated when `neg`; at least one digit. */
  function DecimalOf(neg: bool, whole: string, frac: string): (r: Option<real>)
  {
    if !AllDigits(whole) || !AllDigits(frac) || |whole| + |frac| == 0 then None
    else
      var v := DigitsValue(whole) as real + FractionValue(frac);
      Some(if neg then -v else v)
  }

  // ---------------------------------------------------------------------------
  // Searching

  /** First index of `c` in `s`, as `find` returns it. */
  function IndexOf(s: string, c: char): (r: Option<nat>)
    ensures r.Some? ==> r.value < |s| && s[r.value] == c
    ensures r.Some? ==> c !in s[..r.value]
    ensures r.None? <==> c !in s
  {
    if |s| == 0 then None
    else if s[0] == c then Some(0)
    else match IndexOf(s[1..], c)
      case None => None
      case Some(i) =>
        assert s[..i + 1] == [s[0]] + s[1..][..i];
        Some(i + 1)
  }

  /** The first occurrence is where find stops. */
  lemma IndexOfAt(s: string, c: char, i: nat)
    requires i < |s| && s[i] == c && c !in s[..i]
    ensures IndexOf(s, c) == Some(i)
  {
  }

  function CountChar(s: string, c: char): nat
  {
    if |s| == 0 then 0 else (if s[0] == c then 1 else 0) + CountChar(s[1..], c)
  }

  predicate IsPrefix(p: string, s: string) { |p| <= |s| && s[..|p|] == p }

  /** `s` contains `sub` as a contiguous substring. */
  predicate Contains(s: string, sub: string)
    decreases |s|
  {
    IsPrefix(sub, s) || (|s| > 0 && Contains(s[1..], sub))
  }

  lemma {:induction false} ContainsAt(s: string, sub: string, i: nat)
    requires i + |sub| <= |s| && s[i..i + |sub|] == sub
    ensures Contains(s, sub)
    decreases i
  {
    if i > 0 {
      assert s[1..][i - 1..i - 1 + |sub|] == s[i..i + |sub|];
      ContainsAt(s[1..], sub, i - 1);
    }
  }

  lemma {:induction false} ContainsWitness(s: string, sub: string) returns (i: nat)
    requires Contains(s, sub)
    ensures i + |sub| <= |s| && s[i..i + |sub|] == sub
    decreases |s|
  {
    if IsPrefix(sub, s) {
      i := 0;
    } else {
      var j := ContainsWitness(s[1..], sub);
      assert s[1..][j..j + |sub|] == s[j + 1..j + 1 + |sub|];
      i := j + 1;
    }
  }

  /** An occurrence of a string contains every piece of it. */
  lemma ContainsInner(s: string, sub: string, piece: string, k: nat)
    requires Contains(s, sub)
    requires k + |piece| <= |sub| && sub[k..k + |piece|] == piece
    ensures Contains(s, piece)
  {
    var i := ContainsWitness(s, sub);
    forall j | 0 <= j < |piece| ensures s[i + k + j] == piece[j] {
      assert s[i..i + |sub|][k + j] == sub[k + j];
    }
    assert s[i + k..i + k + |piece|] == piece;
    ContainsAt(s, piece, i + k);
  }

  // ---------------------------------------------------------------------------
  // Splitting

  /** Rust's `str::split(sep)`: the pieces between separators, always at
      least one. */
  function Split(s: string, sep: char): (parts: seq<string>)
    ensures |parts| >= 1
    ensures forall k :: 0 <= k < |parts| ==> sep !in parts[k]
    decreases |s|
  {
    match IndexOf(s, sep)
    case None => [s]
    case Some(i) => [s[..i]] + Split(s[i + 1..], sep)
  }

  lemma {:induction false} SplitCount(s: string, sep: char)
    ensures |Split(s, sep)| == CountChar(s, sep) + 1
    decreases |s|
  {
    match IndexOf(s, sep)
    case None => CountAbsent(s, sep);
    case Some(i) =>
      SplitCount(s[i + 1..], sep);
      CountSplit(s, sep, i);
  }

  lemma {:induction false} CountAbsent(s: string, c: char)
    requires c !in s
    ensures CountChar(s, c) == 0
  {
    if |s| > 0 {
      assert c !in s[1..] by { assert forall k :: 0 <= k < |s| - 1 ==> s[1..][k] == s[k + 1]; }
      CountAbsent(s[1..], c);
    }
  }

  lemma {:induction false} CountSplit(s: string, c: char, i: nat)
    requires i < |s| && s[i] == c && c !in s[..i]
    ensures CountChar(s, c) == 1 + CountChar(s[i + 1..], c)
    decreases i
  {
    if i > 0 {
      assert s[1..][..i - 1] == s[1..i];
      assert c !in s[1..][..i - 1];
      CountSplit(s[1..], c, i - 1);
      assert s[1..][i..] == s[i + 1..];
    }
  }

  /** Splitting a string built from separator-free pieces gives the pieces back. */
  lemma SplitJoin(a: string, sep: char, rest: string)
    requires sep !in a
    ensures Split(a + [sep] + rest, sep) == [a] + Split(rest, sep)
  {
    var s := a + [sep] + rest;
    assert s[|a|] == sep;
    assert s[..|a|] == a;
    assert s[|a| + 1..] == rest;
  }

  // ---------------------------------------------------------------------------
  // Whitespace and trimming

  /** Rust's `char::is_whitespace` (the Unicode White_Space property). */
  predicate IsRustWhitespace(c: char)
  {
    if c <= ' ' then c == ' ' || '\U{0009}' <= c <= '\U{000D}'
    else '\U{0085}' <= c && (c == '\U{0085}' || c == '\U{00A0}' || c == '\U{1680}' || ('\U{2000}' <= c <= '\U{200A}')
                            || c == '\U{2028}' || c == '\U{2029}' || c == '\U{202F}' || c == '\U{205F}' || c == '\U{3000}')
  }

  /** The blank set `" \t"` the C++ code passes to `find_first_not_of`. */
  predicate IsBlank(c: char) { c == ' ' || c == '\t' }

  /** Number of leading characters of `s` satisfying `ws`. */
  function LeadingCount(s: string, ws: char -> bool): (n: nat)
    ensures n <= |s|
  {
    if |s| == 0 || !ws(s[0]) then 0 else 1 + LeadingCount(s[1..], ws)
  }

  /** Number of trailing characters of `s` satisfying `ws`. */
  function TrailingCount(s: string, ws: char -> bool): (n: nat)
    ensures n <= |s|
  {
    if |s| == 0 || !ws(s[|s| - 1]) then 0 else 1 + TrailingCount(s[..|s| - 1], ws)
  }

  function TrimStart(s: string, ws: char -> bool): (r: string)
    ensures r == s[LeadingCount(s, ws)..]
  {
    s[LeadingCount(s, ws)..]
  }

  /** Both ends trimmed: Rust's `trim()` with `IsRustWhitespace`, the C++
      `erase(find_first_not_of)`/`erase(find_last_not_of + 1)` pair with
      `IsBlank`. */
  function Trim(s: string, ws: char -> bool): (r: string)
    ensures |r| <= |s|
  {
    var t := TrimStart(s, ws);
    t[..|t| - TrailingCount(t, ws)]
  }

  /** Trimming a string whose first and last characters are not whitespace
      changes nothing. */
  lemma TrimNoop(s: string, ws: char -> bool)
    requires |s| > 0 ==> !ws(s[0]) && !ws(s[|s| - 1])
    ensures TrimStart(s, ws) == s && Trim(s, ws) == s
  {
  }

  /** A digit string within the i32 range parses to its value. */
  lemma ParseI32Digits(s: string)
    requires |s| > 0 && AllDigits(s) && DigitsValue(s) <= I32Max
    ensures ParseI32(s) == Some(DigitsValue(s))
  {
    assert SignAndDigits(s) == (false, s);
  }

  lemma {:induction false} CountCharAppend(a: string, b: string, c: char)
    ensures CountChar(a + b, c) == CountChar(a, c) + CountChar(b, c)
    decreases |a|
  {
    if |a| > 0 {
      assert (a + b)[1..] == a[1..] + b;
      CountCharAppend(a[1..], b, c);
    } else {
      assert a + b == b;
    }
  }

  /** A character that is counted occurs. */
  lemma {:induction false} CountedOccurs(s: string, c: char)
    requires CountChar(s, c) > 0
    ensures c in s
    decreases |s|
  {
    if s[0] != c {
      CountedOccurs(s[1..], c);
    }
  }
}
