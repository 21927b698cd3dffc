/** Command-line value parsing of src/options.rs and src/options.cpp: the
    --ss/--to time strings, and the libaribcaption option string
    `key=value,key=value` with quoting and the excluded keys. */
module Options {
  import opened Wrappers
  import opened Text

  // ---------------------------------------------------------------------------
  // Time strings

  const InvalidTimeFormat: string :=
    "Invalid time format. Use seconds (e.g. 123.456) or HH:MM:SS.mmm (e.g. 01:23:45.123)"

  /** parse_time_string: after trimming, two colons mean HH:MM:SS, one colon
      MM:SS, each optionally followed by '.' and a fraction; anything else is
      a plain decimal number of seconds. */
  function ParseTimeString(timeStr: string): Result<real>
  {
    ParseTrimmed(Trim(timeStr, IsRustWhitespace))
  }

  function ParseTrimmed(s: string): Result<real>
  {
    var colons := CountChar(s, ':');
    if colons == 1 || colons == 2 then ParseClockString(s, colons) else ParseSeconds(s)
  }

  /** A plain decimal number of seconds. */
  function ParseSeconds(s: string): Result<real>
  {
    match ParseDecimal(s)
    case None => Err(InvalidTimeFormat)
    case Some(v) => Ok(v)
  }

  /** The clock forms, with or without a fraction after the first '.'. */
  function ParseClockString(s: string, colons: nat): Result<real>
  {
    match IndexOf(s, '.')
    case None => ParseClock(s, colons)
    case Some(d) => ParseFractionClock(s, d, colons)
  }

  /** The fraction is parsed before the clock fields, so a bad fraction is
      reported first. */
  function ParseFractionClock(s: string, d: nat, colons: nat): Result<real>
    requires d < |s|
  {
    match ParseDecimal("0." + s[d + 1..])
    case None => Err("invalid milliseconds")
    case Some(ms) =>
      match ParseClock(s[..d], colons)
      case Err(m) => Err(m)
      case Ok(secs) => Ok(secs + ms)
  }

  function ParseClock(s: string, colons: nat): Result<real>
  {
    if colons == 2 then ParseHhmmss(s) else ParseMmss(s)
  }

  /** A clock field: trimmed, then parsed as an i32. */
  function Field(part: string): Option<int>
  {
    ParseI32(Trim(part, IsRustWhitespace))
  }

  /** parse_hhmmss: exactly three ':'-separated i32 fields. */
  function ParseHhmmss(s: string): Result<real>
  {
    var parts := Split(s, ':');
    if |parts| != 3 then Err("HH:MM:SS requires 3 numbers")
    else match Field(parts[0])
      case None => Err("invalid hours")
      case Some(h) =>
        match Field(parts[1])
        case None => Err("invalid minutes")
        case Some(m) =>
          match Field(parts[2])
          case None => Err("invalid seconds")
          case Some(sec) => Ok((h * 3600 + m * 60 + sec) as real)
  }

  /** parse_mmss: exactly two ':'-separated i32 fields. */
  function ParseMmss(s: string): Result<real>
  {
    var parts := Split(s, ':');
    if |parts| != 2 then Err("MM:SS requires 2 numbers")
    else match Field(parts[0])
      case None => Err("invalid minutes")
      case Some(m) =>
        match Field(parts[1])
        case None => Err("invalid seconds")
        case Some(sec) => Ok((m * 60 + sec) as real)
  }

  /** Digits that a clock field accepts as they are. */
  predicate Digits(s: string)
  {
    |s| > 0 && AllDigits(s) && DigitsValue(s) <= I32Max
  }

  lemma DigitsField(s: string)
    requires Digits(s)
    ensures Field(s) == Some(DigitsValue(s))
  {
    TrimNoop(s, IsRustWhitespace);
    ParseI32Digits(s);
  }

  lemma {:induction false} NoColon(s: string)
    requires AllDigits(s)
    ensures ':' !in s && '.' !in s && CountChar(s, ':') == 0
  {
    CountAbsent(s, ':');
  }

  /** HH:MM:SS in terms of its fields. */
  lemma HhmmssParts(s: string, parts: seq<string>, h: int, m: int, sec: int)
    requires Split(s, ':') == parts && |parts| == 3
    requires Field(parts[0]) == Some(h) && Field(parts[1]) == Some(m) && Field(parts[2]) == Some(sec)
    ensures ParseHhmmss(s) == Ok((h * 3600 + m * 60 + sec) as real)
  {
  }

  /** MM:SS in terms of its fields. */
  lemma MmssParts(s: string, parts: seq<string>, m: int, sec: int)
    requires Split(s, ':') == parts && |parts| == 2 && Field(parts[0]) == Some(m) && Field(parts[1]) == Some(sec)
    ensures ParseMmss(s) == Ok((m * 60 + sec) as real)
  {
  }

  lemma SplitOne(a: string)
    requires AllDigits(a)
    ensures Split(a, ':') == [a]
  {
    NoColon(a);
  }

  lemma SplitTwo(a: string, rest: string)
    requires AllDigits(a)
    ensures Split(a + ":" + rest, ':') == [a] + Split(rest, ':')
  {
    NoColon(a);
    assert a + ":" + rest == a + [':'] + rest;
    SplitJoin(a, ':', rest);
  }

  /** Fields joined by ':', the way a clock string is written. */
  function JoinColon(fields: seq<string>): (s: string)
    requires |fields| >= 1
    ensures |s| >= |fields[0]|
    decreases |fields|
  {
    if |fields| == 1 then fields[0] else fields[0] + ":" + JoinColon(fields[1..])
  }

  predicate DigitFields(fields: seq<string>)
  {
    forall k :: 0 <= k < |fields| ==> AllDigits(fields[k])
  }

  /** Splitting a join of digit fields at ':' gives the fields back. */
  lemma {:induction false} SplitJoinColon(fields: seq<string>)
    requires |fields| >= 1 && DigitFields(fields)
    ensures Split(JoinColon(fields), ':') == fields
    decreases |fields|
  {
    if |fields| == 1 {
      SplitOne(fields[0]);
    } else {
      SplitTwo(fields[0], JoinColon(fields[1..]));
      SplitJoinColon(fields[1..]);
      assert [fields[0]] + fields[1..] == fields;
    }
  }

  /** A join of digit fields has one ':' fewer than it has fields, and no '.'. */
  lemma {:induction false} CountJoinColon(fields: seq<string>)
    requires |fields| >= 1 && DigitFields(fields)
    ensures CountChar(JoinColon(fields), ':') == |fields| - 1
    ensures '.' !in JoinColon(fields)
    decreases |fields|
  {
    NoColon(fields[0]);
    if |fields| > 1 {
      var rest := JoinColon(fields[1..]);
      CountJoinColon(fields[1..]);
      CountCharAppend(fields[0], ":", ':');
      CountCharAppend(fields[0] + ":", rest, ':');
      assert fields[0] + ":" + rest == fields[0] + [':'] + rest;
    }
  }

  /** A join of non-empty digit fields starts and ends with a digit. */
  lemma {:induction false} JoinColonEnds(fields: seq<string>)
    requires |fields| >= 1 && DigitFields(fields)
    requires forall k :: 0 <= k < |fields| ==> |fields[k]| > 0
    ensures var s := JoinColon(fields); var last := fields[|fields| - 1];
      |s| > 0 && s[0] == fields[0][0] && s[|s| - 1] == last[|last| - 1]
    decreases |fields|
  {
    if |fields| > 1 {
      JoinColonEnds(fields[1..]);
    }
  }

  /** Two or three digit fields, each within i32. */
  predicate ClockFields(fields: seq<string>)
  {
    2 <= |fields| <= 3 && forall k :: 0 <= k < |fields| ==> Digits(fields[k])
  }

  /** The seconds a clock's fields stand for. */
  function ClockValue(fields: seq<string>): real
    requires ClockFields(fields)
  {
    if |fields| == 3 then (DigitsValue(fields[0]) * 3600 + DigitsValue(fields[1]) * 60 + DigitsValue(fields[2])) as real
    else (DigitsValue(fields[0]) * 60 + DigitsValue(fields[1])) as real
  }

  /** HH:MM:SS and MM:SS written with digit fields are read back as their
      number of seconds. */
  lemma ClockParse(fields: seq<string>)
    requires ClockFields(fields)
    ensures ParseClock(JoinColon(fields), |fields| - 1) == Ok(ClockValue(fields))
  {
    assert DigitFields(fields);
    SplitJoinColon(fields);
    ClockParseOf(JoinColon(fields), fields);
  }

  /** ParseClock of any string that splits into the clock's fields. */
  lemma ClockParseOf(s: string, fields: seq<string>)
    requires ClockFields(fields) && Split(s, ':') == fields
    ensures ParseClock(s, |fields| - 1) == Ok(ClockValue(fields))
  {
    DigitsField(fields[0]);
    DigitsField(fields[1]);
    if |fields| == 3 {
      DigitsField(fields[2]);
      HhmmssParts(s, fields, DigitsValue(fields[0]), DigitsValue(fields[1]), DigitsValue(fields[2]));
    } else {
      MmssParts(s, fields, DigitsValue(fields[0]), DigitsValue(fields[1]));
    }
  }

  /** The facts about a clock string that parse_time_string looks at. */
  lemma ClockShape(fields: seq<string>)
    requires ClockFields(fields)
    ensures var s := JoinColon(fields);
      |s| > 0 && IsDigit(s[0]) && IsDigit(s[|s| - 1]) && '.' !in s && CountChar(s, ':') == |fields| - 1
  {
    assert DigitFields(fields);
    CountJoinColon(fields);
    JoinColonEnds(fields);
  }

  /** parse_time_string on a trimmed clock string without a fraction. */
  lemma ClockStringOf(s: string, n: nat)
    requires Trim(s, IsRustWhitespace) == s && CountChar(s, ':') == n && (n == 1 || n == 2)
    requires IndexOf(s, '.') == None
    ensures ParseTimeString(s) == ParseClock(s, n)
  {
  }

  /** parse_time_string on a clock string with a fraction after '.'. */
  lemma FractionStringOf(s: string, d: nat, n: nat)
    requires Trim(s, IsRustWhitespace) == s && CountChar(s, ':') == n && (n == 1 || n == 2)
    requires d < |s| && IndexOf(s, '.') == Some(d)
    ensures ParseTimeString(s) == ParseFractionClock(s, d, n)
  {
  }

  /** A clock with a fraction is the sum of the two parts. */
  lemma FractionClockOf(s: string, d: nat, n: nat, v: real, f: real)
    requires d < |s| && ParseDecimal("0." + s[d + 1..]) == Some(f) && ParseClock(s[..d], n) == Ok(v)
    ensures ParseFractionClock(s, d, n) == Ok(v + f)
  {
  }

  /** parse_time_string on a trimmed string without colons. */
  lemma SecondsStringOf(s: string)
    requires Trim(s, IsRustWhitespace) == s && CountChar(s, ':') == 0
    ensures ParseTimeString(s) == ParseSeconds(s)
  {
  }

  /** "0." followed by digits is the fraction those digits spell. */
  lemma MillisecondsValue(frac: string)
    requires AllDigits(frac)
    ensures ParseDecimal("0." + frac) == Some(FractionValue(frac))
  {
    var body := "0." + frac;
    assert SignAndDigits(body) == (false, body);
    IndexOfAt(body, '.', 1);
    assert body[..1] == "0" && body[2..] == frac;
    assert DigitsValue("0") == 0;
    assert DecimalOf(false, "0", frac) == Some(FractionValue(frac));
  }

  /** HH:MM:SS and MM:SS round trip through parse_time_string. */
  lemma ClockRoundTrip(fields: seq<string>)
    requires ClockFields(fields)
    ensures ParseTimeString(JoinColon(fields)) == Ok(ClockValue(fields))
  {
    var s := JoinColon(fields);
    ClockShape(fields);
    ClockParse(fields);
    TrimNoop(s, IsRustWhitespace);
    assert IndexOf(s, '.') == None;
    ClockStringOf(s, |fields| - 1);
  }

  /** The same with a fraction: a clock string `c` that reads as `v` on its
      own (ClockParse), followed by '.' and digits that read as the fraction
      `f` (MillisecondsValue), reads as `v + f`. */
  lemma ClockFractionRoundTrip(c: string, frac: string, n: nat, v: real, f: real)
    requires |c| > 0 && IsDigit(c[0]) && '.' !in c && AllDigits(frac)
    requires CountChar(c, ':') == n && (n == 1 || n == 2) && ParseClock(c, n) == Ok(v)
    requires ParseDecimal("0." + frac) == Some(f)
    ensures ParseTimeString(c + "." + frac) == Ok(v + f)
  {
    ClockFractionFacts(c, frac, n, v, f);
    FractionStringOf(c + "." + frac, |c|, n);
  }

  lemma ClockFractionFacts(c: string, frac: string, n: nat, v: real, f: real)
    requires |c| > 0 && IsDigit(c[0]) && '.' !in c && AllDigits(frac)
    requires CountChar(c, ':') == n && ParseClock(c, n) == Ok(v)
    requires ParseDecimal("0." + frac) == Some(f)
    ensures var s := c + "." + frac;
      Trim(s, IsRustWhitespace) == s && CountChar(s, ':') == n && |c| < |s| && IndexOf(s, '.') == Some(|c|)
      && ParseFractionClock(s, |c|, n) == Ok(v + f)
  {
    DecimalTailFacts(c, frac);
    FractionClockOf(c + "." + frac, |c|, n, v, f);
  }

  /** What `c + "." + frac` looks like to the trimming and the colon count. */
  lemma DecimalTailFacts(c: string, frac: string)
    requires |c| > 0 && IsDigit(c[0]) && '.' !in c && AllDigits(frac)
    ensures var s := c + "." + frac;
      |c| < |s| && IndexOf(s, '.') == Some(|c|) && s[..|c|] == c && s[|c| + 1..] == frac
      && CountChar(s, ':') == CountChar(c, ':') && Trim(s, IsRustWhitespace) == s
  {
    var s := c + "." + frac;
    DotAt(c, frac);
    NoColon(frac);
    CountCharAppend(c, ".", ':');
    CountCharAppend(c + ".", frac, ':');
    assert |frac| > 0 ==> s[|s| - 1] == frac[|frac| - 1];
    TrimNoop(s, IsRustWhitespace);
  }

  /** Without a colon the string is a decimal number of seconds. */
  lemma SecondsRoundTrip(whole: string)
    requires |whole| > 0 && AllDigits(whole)
    ensures ParseTimeString(whole) == Ok(DigitsValue(whole) as real)
  {
    NoColon(whole);
    TrimNoop(whole, IsRustWhitespace);
    DecimalWhole(whole);
    SecondsStringOf(whole);
  }

  /** The same with a fraction after '.'. */
  lemma SecondsFractionRoundTrip(whole: string, frac: string)
    requires |whole| > 0 && AllDigits(whole) && AllDigits(frac)
    ensures ParseTimeString(whole + "." + frac) == Ok(DigitsValue(whole) as real + FractionValue(frac))
  {
    SecondsFractionFacts(whole, frac);
    SecondsStringOf(whole + "." + frac);
  }

  lemma SecondsFractionFacts(whole: string, frac: string)
    requires |whole| > 0 && AllDigits(whole) && AllDigits(frac)
    ensures var s := whole + "." + frac;
      Trim(s, IsRustWhitespace) == s && CountChar(s, ':') == 0
      && ParseDecimal(s) == Some(DigitsValue(whole) as real + FractionValue(frac))
  {
    NoColon(whole);
    DecimalTailFacts(whole, frac);
    DecimalWithFraction(whole, frac);
  }

  /** No decimal number contains a colon. */
  lemma NoDecimalWithColon(t: string)
    requires ':' in t
    ensures ParseDecimal(t) == None
  {
    var (neg, body) := SignAndDigits(t);
    assert ':' in body;
    match IndexOf(body, '.')
    case None =>
    case Some(d) =>
      assert body == body[..d] + [body[d]] + body[d + 1..];
      assert ':' in body[..d] || ':' in body[d + 1..];
  }

  /** Three or more colons are an error. */
  lemma ManyColonsRejected(timeStr: string)
    requires CountChar(Trim(timeStr, IsRustWhitespace), ':') >= 3
    ensures ParseTimeString(timeStr).Err?
  {
    var s := Trim(timeStr, IsRustWhitespace);
    CountedOccurs(s, ':');
    NoDecimalWithColon(s);
  }

  /** In the clock forms, a fraction that is not all digits is reported as
      invalid milliseconds, whatever the clock fields are. */
  lemma BadMillisecondsRejected(timeStr: string)
    requires var s := Trim(timeStr, IsRustWhitespace);
      (CountChar(s, ':') == 1 || CountChar(s, ':') == 2)
      && IndexOf(s, '.').Some? && !AllDigits(s[IndexOf(s, '.').value + 1..])
    ensures ParseTimeString(timeStr) == Err("invalid milliseconds")
  {
    var s := Trim(timeStr, IsRustWhitespace);
    var rest := s[IndexOf(s, '.').value + 1..];
    var body := "0." + rest;
    assert SignAndDigits(body) == (false, body);
    IndexOfAt(body, '.', 1);
    assert body[2..] == rest;
  }

  /** A clock field that is not an i32 makes HH:MM:SS an error. */
  lemma BadFieldRejected(s: string, k: nat)
    requires |Split(s, ':')| == 3 && k < 3 && Field(Split(s, ':')[k]).None?
    ensures ParseHhmmss(s).Err?
  {
  }

  /** A clock field that is not an i32 makes MM:SS an error. */
  lemma BadMmssFieldRejected(s: string, k: nat)
    requires |Split(s, ':')| == 2 && k < 2 && Field(Split(s, ':')[k]).None?
    ensures ParseMmss(s).Err?
  {
  }

  /** In both clock forms without a fraction, a field that is not an i32
      makes the whole time string an error. */
  lemma BadClockFieldRejected(timeStr: string, k: nat)
    requires var s := Trim(timeStr, IsRustWhitespace);
      (CountChar(s, ':') == 1 || CountChar(s, ':') == 2) && IndexOf(s, '.').None?
      && k < |Split(s, ':')| && Field(Split(s, ':')[k]).None?
    ensures ParseTimeString(timeStr).Err?
  {
    var s := Trim(timeStr, IsRustWhitespace);
    SplitCount(s, ':');
    if CountChar(s, ':') == 2 {
      BadFieldRejected(s, k);
    } else {
      BadMmssFieldRejected(s, k);
    }
  }

  // ---------------------------------------------------------------------------
  // libaribcaption option strings

  /** Keys the program sets itself or does not support. */
  const ExcludedOpts: seq<string> := ["sub_type", "ass_single_rect", "canvas_size"]

  predicate IsExcludedOpt(key: string)
  {
    key in ExcludedOpts
  }

  predicate IsQuote(c: char)
  {
    c == '"' || c == '\''
  }

  /** The first position at or after j that is not a space or a tab, or the
      end. */
  function SkipBlanks(s: string, j: nat): (k: nat)
    requires j <= |s|
    ensures j <= k <= |s| && (k < |s| ==> !IsBlank(s[k]))
    decreases |s| - j
  {
    if j < |s| && IsBlank(s[j]) then SkipBlanks(s, j + 1) else j
  }

  /** The first position at or after j holding c, if any. */
  function FindFrom(s: string, j: nat, c: char): (r: Option<nat>)
    requires j <= |s|
    ensures r.Some? ==> j <= r.value < |s| && s[r.value] == c
    decreases |s| - j
  {
    if j == |s| then None
    else if s[j] == c then Some(j)
    else FindFrom(s, j + 1, c)
  }

  /** Whether the comma at i starts a new option: after the blanks that
      follow it, a non-empty key without a comma comes before the next '='.
      Keys are trimmed with `ws`. */
  predicate NextKeyFollows(s: string, i: nat, ws: char -> bool)
    requires i < |s|
  {
    var start := SkipBlanks(s, i + 1);
    match FindFrom(s, start, '=')
    case None => false
    case Some(e) =>
      var key := Trim(s[start..e], ws);
      |key| > 0 && ',' !in key
  }

  /** Where a value that starts at valueStart ends, once the scan has
      reached i in the given quoting state. A quote not preceded by a
      backslash (or the first character) opens quoting, and only the same
      quote closes it; a comma outside quotes ends the value when a new
      option follows it. */
  function ScanEnd(s: string, valueStart: nat, i: nat, inQuotes: bool, quoteChar: char, ws: char -> bool): (e: nat)
    requires valueStart <= i <= |s|
    ensures i <= e <= |s|
    decreases |s| - i
  {
    if i == |s| then i
    else
      var c := s[i];
      if IsQuote(c) && (i == valueStart || s[i - 1] != '\\') then
        if !inQuotes then ScanEnd(s, valueStart, i + 1, true, c, ws)
        else if c == quoteChar then ScanEnd(s, valueStart, i + 1, false, quoteChar, ws)
        else ScanEnd(s, valueStart, i + 1, inQuotes, quoteChar, ws)
      else if c == ',' && !inQuotes && NextKeyFollows(s, i, ws) then i
      else ScanEnd(s, valueStart, i + 1, inQuotes, quoteChar, ws)
  }

  /** One pair of matching quotes around the whole value is removed. */
  function Unquote(v: string): (r: string)
  {
    if |v| >= 2 && IsQuote(v[0]) && v[|v| - 1] == v[0] then v[1..|v| - 1] else v
  }

  /** What is left after a value that ends at i: its separating comma is
      consumed. */
  function Rest(r: string, i: nat): string
    requires i <= |r|
  {
    if i < |r| && r[i] == ',' then r[i + 1..] else r[i..]
  }

  /** The (key, value) pairs of an option string, in order: each segment is
      trimmed at the front, its key runs up to the first '=', and its value
      to where ScanEnd stops; parsing ends at a segment with no '='. Every
      segment consumes at least its key and '=', so there are finitely many. */
  function Segments(remaining: string, ws: char -> bool): seq<(string, string)>
    decreases |remaining|
  {
    var r := TrimStart(remaining, ws);
    if |r| == 0 then []
    else match IndexOf(r, '=')
      case None => []
      case Some(eq) =>
        var i := ScanEnd(r, eq + 1, eq + 1, false, '\0', ws);
        [(Trim(r[..eq], ws), Unquote(Trim(r[eq + 1..i], ws)))] + Segments(Rest(r, i), ws)
  }

  /** Storing the pairs in order: excluded keys are skipped, any other key
      is assigned, so a later duplicate overwrites an earlier one. */
  function Assign(acc: map<string, string>, segs: seq<(string, string)>): map<string, string>
    decreases |segs|
  {
    if |segs| == 0 then acc
    else Assign(if IsExcludedOpt(segs[0].0) then acc else acc[segs[0].0 := segs[0].1], segs[1..])
  }

  /** The value the last non-excluded pair with this key carries, if any. */
  function LastValue(segs: seq<(string, string)>, key: string): Option<string>
  {
    if |segs| == 0 then None
    else match LastValue(segs[1..], key)
      case Some(v) => Some(v)
      case None => if segs[0].0 == key && !IsExcludedOpt(key) then Some(segs[0].1) else None
  }

  /** What Assign leaves under each key: the last value given to it, or
      else what was there before (and nothing new). */
  lemma {:induction false} AssignSpec(acc: map<string, string>, segs: seq<(string, string)>, key: string)
    ensures var m := Assign(acc, segs);
      (LastValue(segs, key).Some? ==> key in m && m[key] == LastValue(segs, key).value)
      && (LastValue(segs, key).None? ==> (key in m <==> key in acc) && (key in acc ==> m[key] == acc[key]))
    decreases |segs|
  {
    if |segs| > 0 {
      var acc' := if IsExcludedOpt(segs[0].0) then acc else acc[segs[0].0 := segs[0].1];
      AssignSpec(acc', segs[1..], key);
    }
  }

  /** Excluded keys never receive a value. */
  lemma {:induction false} ExcludedNeverAssigned(segs: seq<(string, string)>, key: string)
    requires IsExcludedOpt(key)
    ensures LastValue(segs, key).None?
  {
    if |segs| > 0 {
      ExcludedNeverAssigned(segs[1..], key);
    }
  }

  /** The map parse_libaribcaption_opts of src/options.rs returns: the
      whole string is trimmed first, and trimming is Rust's. */
  function RustOpts(optsStr: string): map<string, string>
  {
    Assign(map[], Segments(Trim(optsStr, IsRustWhitespace), IsRustWhitespace))
  }

  /** The map parse_libaribcaption_opts of src/options.cpp leaves in the
      caller's map: trimming is of spaces and tabs only, and entries already
      there stay unless overwritten. */
  function CppOpts(optsStr: string, existing: map<string, string>): map<string, string>
  {
    Assign(existing, Segments(optsStr, IsBlank))
  }

  /** The keys sub_type, ass_single_rect and canvas_size never appear in the
      Rust result; in the C++ result only if the caller put them there. */
  lemma ExcludedKeysAbsent(optsStr: string, existing: map<string, string>, key: string)
    requires IsExcludedOpt(key)
    ensures key !in RustOpts(optsStr)
    ensures key in CppOpts(optsStr, existing) <==> key in existing
  {
    ExcludedNeverAssigned(Segments(Trim(optsStr, IsRustWhitespace), IsRustWhitespace), key);
    AssignSpec(map[], Segments(Trim(optsStr, IsRustWhitespace), IsRustWhitespace), key);
    ExcludedNeverAssigned(Segments(optsStr, IsBlank), key);
    AssignSpec(existing, Segments(optsStr, IsBlank), key);
  }

  /** The C++ map is never cleared: an entry whose key the string does not
      assign keeps its value; an assigned key holds the last value given. */
  lemma CppKeepsExisting(optsStr: string, existing: map<string, string>, key: string)
    ensures var segs := Segments(optsStr, IsBlank);
      var m := CppOpts(optsStr, existing);
      (LastValue(segs, key).None? && key in existing ==> key in m && m[key] == existing[key])
      && (LastValue(segs, key).Some? ==> key in m && m[key] == LastValue(segs, key).value)
  {
    AssignSpec(existing, Segments(optsStr, IsBlank), key);
  }

  /** Nothing is parsed from a string without '='. */
  lemma NoEqualsNoOptions(remaining: string, ws: char -> bool)
    requires '=' !in remaining
    ensures Segments(remaining, ws) == []
  {
    var r := TrimStart(remaining, ws);
    assert forall k :: 0 <= k < |r| ==> r[k] == remaining[LeadingCount(remaining, ws) + k];
  }

  // ---------------------------------------------------------------------------
  // Round trips

  /** The option string the pairs spell, unquoted and comma-separated. */
  function JoinOpts(pairs: seq<(string, string)>): string
  {
    if |pairs| == 0 then ""
    else if |pairs| == 1 then pairs[0].0 + "=" + pairs[0].1
    else pairs[0].0 + "=" + pairs[0].1 + "," + JoinOpts(pairs[1..])
  }

  /** A key that needs no quoting: non-empty, without '=', ',' or
      whitespace. */
  predicate PlainKey(k: string)
  {
    |k| > 0 && forall j :: 0 <= j < |k| ==> k[j] != '=' && k[j] != ',' && !IsRustWhitespace(k[j])
  }

  /** A value that needs no quoting: no ',', no quote, no whitespace. */
  predicate PlainValue(v: string)
  {
    forall j :: 0 <= j < |v| ==> v[j] != ',' && !IsQuote(v[j]) && !IsRustWhitespace(v[j])
  }

  predicate PlainPairs(pairs: seq<(string, string)>)
  {
    forall k :: 0 <= k < |pairs| ==> PlainKey(pairs[k].0) && PlainValue(pairs[k].1)
  }

  /** Trimming with `ws` removes at most Rust whitespace (true of both the
      Rust and the C++ trimming). */
  predicate WithinRustWhitespace(ws: char -> bool)
  {
    forall c :: ws(c) ==> IsRustWhitespace(c)
  }

  /** Outside quotes, a stretch without quotes or commas does not end the
      value. */
  lemma {:induction false} ScanPlain(s: string, valueStart: nat, j: nat, end: nat, quoteChar: char, ws: char -> bool)
    requires valueStart <= j <= end <= |s|
    requires forall k :: j <= k < end ==> s[k] != ',' && !IsQuote(s[k])
    ensures ScanEnd(s, valueStart, j, false, quoteChar, ws) == ScanEnd(s, valueStart, end, false, quoteChar, ws)
    decreases end - j
  {
    if j < end {
      ScanPlain(s, valueStart, j + 1, end, quoteChar, ws);
    }
  }

  /** Inside quotes, a stretch without the closing quote does not end the
      value. */
  lemma {:induction false} ScanQuoted(s: string, valueStart: nat, j: nat, end: nat, quoteChar: char, ws: char -> bool)
    requires valueStart <= j <= end <= |s|
    requires forall k :: j <= k < end ==> s[k] != quoteChar
    ensures ScanEnd(s, valueStart, j, true, quoteChar, ws) == ScanEnd(s, valueStart, end, true, quoteChar, ws)
    decreases end - j
  {
    if j < end {
      ScanQuoted(s, valueStart, j + 1, end, quoteChar, ws);
    }
  }

  /** A plain key followed by '=' is the next option. */
  lemma KeyFollows(s: string, i: nat, key: string, ws: char -> bool)
    requires WithinRustWhitespace(ws) && PlainKey(key)
    requires i + 1 + |key| < |s| && s[i + 1..i + 1 + |key|] == key && s[i + 1 + |key|] == '='
    ensures NextKeyFollows(s, i, ws)
  {
    NextKeyFacts(s, i, key, ws);
    NextKeyOf(s, i, i + 1 + |key|, key, ws);
  }

  lemma NextKeyFacts(s: string, i: nat, key: string, ws: char -> bool)
    requires WithinRustWhitespace(ws) && PlainKey(key)
    requires i + 1 + |key| < |s| && s[i + 1..i + 1 + |key|] == key && s[i + 1 + |key|] == '='
    ensures SkipBlanks(s, i + 1) == i + 1 && FindFrom(s, i + 1, '=') == Some(i + 1 + |key|)
    ensures Trim(s[i + 1..i + 1 + |key|], ws) == key && |key| > 0 && ',' !in key
  {
    assert s[i + 1] == key[0];
    assert forall m :: i + 1 <= m < i + 1 + |key| ==> s[m] == key[m - i - 1];
    FindFromAt(s, i + 1, '=', i + 1 + |key|);
    TrimNoop(key, ws);
  }

  /** What NextKeyFollows asks of the text after the comma at i. */
  lemma NextKeyOf(s: string, i: nat, e: nat, key: string, ws: char -> bool)
    requires i + 1 <= e <= |s| && SkipBlanks(s, i + 1) == i + 1 && FindFrom(s, i + 1, '=') == Some(e)
    requires Trim(s[i + 1..e], ws) == key && |key| > 0 && ',' !in key
    ensures NextKeyFollows(s, i, ws)
  {
  }

  /** The search stops at the first c. */
  lemma {:induction false} FindFromAt(s: string, j: nat, c: char, k: nat)
    requires j <= k < |s| && s[k] == c && forall m :: j <= m < k ==> s[m] != c
    ensures FindFrom(s, j, c) == Some(k)
    decreases k - j
  {
    if j < k {
      FindFromAt(s, j + 1, c, k);
    }
  }

  /** Every character of a joined plain string is printable: no whitespace. */
  lemma {:induction false} JoinNoWhitespace(pairs: seq<(string, string)>)
    requires PlainPairs(pairs)
    ensures forall j :: 0 <= j < |JoinOpts(pairs)| ==> !IsRustWhitespace(JoinOpts(pairs)[j])
  {
    if |pairs| > 1 {
      JoinNoWhitespace(pairs[1..]);
      var head := pairs[0].0 + "=" + pairs[0].1 + ",";
      assert JoinOpts(pairs) == head + JoinOpts(pairs[1..]);
      forall j | 0 <= j < |JoinOpts(pairs)|
        ensures !IsRustWhitespace(JoinOpts(pairs)[j])
      {
        if j >= |head| {
          assert JoinOpts(pairs)[j] == JoinOpts(pairs[1..])[j - |head|];
        }
      }
    }
  }

  /** One segment of a string that needs no trimming at the front. */
  lemma SegmentsHead(s: string, ws: char -> bool, eq: nat, i: nat)
    requires |s| > 0 && TrimStart(s, ws) == s && IndexOf(s, '=') == Some(eq)
    requires eq + 1 <= i <= |s| && ScanEnd(s, eq + 1, eq + 1, false, '\0', ws) == i
    ensures Segments(s, ws) == [(Trim(s[..eq], ws), Unquote(Trim(s[eq + 1..i], ws)))] + Segments(Rest(s, i), ws)
  {
  }

  /** The option the pairs start with, and what follows it. */
  function JoinTail(pairs: seq<(string, string)>): string
    requires |pairs| > 0
  {
    if |pairs| == 1 then "" else "," + JoinOpts(pairs[1..])
  }

  lemma JoinShape(pairs: seq<(string, string)>)
    requires |pairs| > 0
    ensures JoinOpts(pairs) == pairs[0].0 + "=" + pairs[0].1 + JoinTail(pairs)
  {
  }

  lemma SliceFacts(key: string, value: string, tail: string)
    ensures var s := key + "=" + value + tail; var end := |key| + 1 + |value|;
      end <= |s| && s[..|key|] == key && s[|key|] == '=' && s[|key| + 1..end] == value && s[end..] == tail
  {
    var s := key + "=" + value + tail;
    var end := |key| + 1 + |value|;
    assert s[..|key|] == key;
    assert s[|key| + 1..end] == value;
    assert s[end..] == tail;
  }

  /** A plain key and then '=' at the front: nothing to trim, and the key
      ends at that '='. */
  lemma KeyPrefix(s: string, key: string, ws: char -> bool)
    requires WithinRustWhitespace(ws) && PlainKey(key)
    requires |key| < |s| && s[..|key|] == key && s[|key|] == '='
    ensures TrimStart(s, ws) == s && IndexOf(s, '=') == Some(|key|)
  {
    assert s[0] == key[0];
    TrimStartNoop(s, ws);
    IndexOfAt(s, '=', |key|);
  }

  /** A plain value that ends the string or is followed by a comma and the
      next plain key ends where it is written to end. */
  lemma ValueEnd(s: string, vs: nat, value: string, tail: string, next: string, ws: char -> bool)
    requires WithinRustWhitespace(ws) && PlainValue(value)
    requires vs + |value| <= |s| && s[vs..vs + |value|] == value && s[vs + |value|..] == tail
    requires tail == "" || (PlainKey(next) && |tail| > |next| + 1 && tail[0] == ',' && tail[1..|next| + 1] == next && tail[|next| + 1] == '=')
    ensures ScanEnd(s, vs, vs, false, '\0', ws) == vs + |value|
    ensures Rest(s, vs + |value|) == (if tail == "" then "" else tail[1..])
  {
    var end := vs + |value|;
    PlainScan(s, vs, value, ws);
    if tail != "" {
      NextAfter(s, end, tail, next, ws);
      ScanStopsAt(s, vs, end, ws);
    } else {
      assert end == |s|;
    }
  }

  /** Outside quotes, a comma that a new option follows ends the value. */
  lemma ScanStopsAt(s: string, vs: nat, i: nat, ws: char -> bool)
    requires vs <= i < |s| && s[i] == ',' && NextKeyFollows(s, i, ws)
    ensures ScanEnd(s, vs, i, false, '\0', ws) == i && Rest(s, i) == s[i + 1..]
  {
  }

  /** Scanning a plain value reaches its end. */
  lemma PlainScan(s: string, vs: nat, value: string, ws: char -> bool)
    requires PlainValue(value) && vs + |value| <= |s| && s[vs..vs + |value|] == value
    ensures ScanEnd(s, vs, vs, false, '\0', ws) == ScanEnd(s, vs, vs + |value|, false, '\0', ws)
  {
    assert forall k :: vs <= k < vs + |value| ==> s[k] == value[k - vs];
    ScanPlain(s, vs, vs, vs + |value|, '\0', ws);
  }

  /** A comma followed by the next plain key and its '='. */
  lemma NextAfter(s: string, end: nat, tail: string, next: string, ws: char -> bool)
    requires WithinRustWhitespace(ws) && end <= |s| && s[end..] == tail
    requires PlainKey(next) && |tail| > |next| + 1 && tail[0] == ',' && tail[1..|next| + 1] == next && tail[|next| + 1] == '='
    ensures end < |s| && s[end] == ',' && NextKeyFollows(s, end, ws) && s[end + 1..] == tail[1..]
  {
    assert s[end] == tail[0];
    assert s[end + 1..end + 1 + |next|] == tail[1..|next| + 1];
    assert s[end + 1 + |next|] == tail[|next| + 1];
    KeyFollows(s, end, next, ws);
  }

  lemma TrimStartNoop(s: string, ws: char -> bool)
    requires |s| > 0 && WithinRustWhitespace(ws) && !IsRustWhitespace(s[0])
    ensures TrimStart(s, ws) == s
  {
  }

  /** Parsing plain pairs written out as `key=value,key=value` gives the
      pairs back, with either trimming. */
  lemma {:induction false} SegmentsOfJoin(pairs: seq<(string, string)>, ws: char -> bool)
    requires WithinRustWhitespace(ws) && PlainPairs(pairs)
    ensures Segments(JoinOpts(pairs), ws) == pairs
    decreases |pairs|
  {
    if |pairs| > 0 {
      JoinStep(pairs, ws);
      SegmentsOfJoin(pairs[1..], ws);
      assert pairs == [pairs[0]] + pairs[1..];
    }
  }

  /** The first pair is parsed, and parsing goes on with the rest. */
  lemma JoinStep(pairs: seq<(string, string)>, ws: char -> bool)
    requires WithinRustWhitespace(ws) && PlainPairs(pairs) && |pairs| > 0
    ensures Segments(JoinOpts(pairs), ws) == [pairs[0]] + Segments(JoinOpts(pairs[1..]), ws)
  {
    var s, rest := JoinOpts(pairs), JoinOpts(pairs[1..]);
    var key, value := pairs[0].0, pairs[0].1;
    var tail := JoinTail(pairs);
    var next := if |pairs| > 1 then pairs[1].0 else "";
    JoinShape(pairs);
    TailShape(pairs);
    PairSegment(s, key, value, tail, next, rest, ws);
    assert pairs[0] == (key, value);
  }

  /** The tail after the first pair: empty, or a comma, the next plain key
      and its '='; `rest` is what follows the comma. */
  predicate TailOk(tail: string, next: string, rest: string)
  {
    && (tail == "" || (PlainKey(next) && |tail| > |next| + 1 && tail[0] == ',' && tail[1..|next| + 1] == next && tail[|next| + 1] == '='))
    && rest == if tail == "" then "" else tail[1..]
  }

  /** A plain `key=value` followed by nothing or by a comma and the next
      plain key is parsed as that pair, and parsing goes on after the comma. */
  lemma PairSegment(s: string, key: string, value: string, tail: string, next: string, rest: string, ws: char -> bool)
    requires WithinRustWhitespace(ws) && PlainKey(key) && PlainValue(value)
    requires s == key + "=" + value + tail && TailOk(tail, next, rest)
    ensures Segments(s, ws) == [(key, value)] + Segments(rest, ws)
  {
    SliceFacts(key, value, tail);
    StepFacts(s, key, value, tail, next, rest, ws);
    SegmentsHeadOf(s, ws, |key|, |key| + 1 + |value|, key, value, rest);
  }

  /** After the first pair: nothing, or a comma, the next plain key and its '='. */
  lemma TailShape(pairs: seq<(string, string)>)
    requires PlainPairs(pairs) && |pairs| > 0
    ensures TailOk(JoinTail(pairs), if |pairs| > 1 then pairs[1].0 else "", JoinOpts(pairs[1..]))
  {
    if |pairs| == 1 {
      return;
    }
    var next := pairs[1].0;
    JoinShape(pairs[1..]);
    assert pairs[1..][0] == pairs[1];
    var rest := JoinOpts(pairs[1..]);
    assert rest[..|next|] == next;
    assert JoinTail(pairs) == "," + rest;
  }

  /** A string that starts with a plain `key=value`, followed by nothing
      or by a comma and the next plain key: what Segments looks at. */
  lemma StepFacts(s: string, key: string, value: string, tail: string, next: string, rest: string, ws: char -> bool)
    requires WithinRustWhitespace(ws) && PlainKey(key) && PlainValue(value)
    requires |key| + 1 + |value| <= |s| && s[..|key|] == key && s[|key|] == '='
    requires s[|key| + 1..|key| + 1 + |value|] == value && s[|key| + 1 + |value|..] == tail
    requires TailOk(tail, next, rest)
    ensures SegmentAt(s, ws, |key|, |key| + 1 + |value|, key, value, rest)
  {
    ValueFacts(s, |key| + 1, value, tail, next, ws);
    KeyFacts(s, key, ws);
  }

  lemma KeyFacts(s: string, key: string, ws: char -> bool)
    requires WithinRustWhitespace(ws) && PlainKey(key)
    requires |key| < |s| && s[..|key|] == key && s[|key|] == '='
    ensures TrimStart(s, ws) == s && IndexOf(s, '=') == Some(|key|) && Trim(s[..|key|], ws) == key
  {
    KeyPrefix(s, key, ws);
    TrimNoop(key, ws);
  }

  lemma ValueFacts(s: string, vs: nat, value: string, tail: string, next: string, ws: char -> bool)
    requires WithinRustWhitespace(ws) && PlainValue(value)
    requires vs + |value| <= |s| && s[vs..vs + |value|] == value && s[vs + |value|..] == tail
    requires tail == "" || (PlainKey(next) && |tail| > |next| + 1 && tail[0] == ',' && tail[1..|next| + 1] == next && tail[|next| + 1] == '=')
    ensures ScanEnd(s, vs, vs, false, '\0', ws) == vs + |value|
    ensures Unquote(Trim(s[vs..vs + |value|], ws)) == value
    ensures Rest(s, vs + |value|) == (if tail == "" then "" else tail[1..])
  {
    ValueEnd(s, vs, value, tail, next, ws);
    TrimNoop(value, ws);
  }

  /** Where a segment starts at the front of `s`: nothing to trim, its key
      ends at the first '=' (at eq), its value at i, and `rest` follows. */
  predicate SegmentAt(s: string, ws: char -> bool, eq: nat, i: nat, key: string, value: string, rest: string)
  {
    |s| > 0 && TrimStart(s, ws) == s && IndexOf(s, '=') == Some(eq)
    && eq + 1 <= i <= |s| && ScanEnd(s, eq + 1, eq + 1, false, '\0', ws) == i
    && Trim(s[..eq], ws) == key && Unquote(Trim(s[eq + 1..i], ws)) == value && Rest(s, i) == rest
  }

  lemma SegmentsHeadOf(s: string, ws: char -> bool, eq: nat, i: nat, key: string, value: string, rest: string)
    ensures SegmentAt(s, ws, eq, i, key, value, rest) ==> Segments(s, ws) == [(key, value)] + Segments(rest, ws)
  {
    if SegmentAt(s, ws, eq, i, key, value, rest) {
      SegmentsHead(s, ws, eq, i);
    }
  }

  /** Written-out plain pairs parse, in both versions, to the map that
      assigning them gives. */
  lemma OptsRoundTrip(pairs: seq<(string, string)>, existing: map<string, string>)
    requires PlainPairs(pairs)
    ensures RustOpts(JoinOpts(pairs)) == Assign(map[], pairs)
    ensures CppOpts(JoinOpts(pairs), existing) == Assign(existing, pairs)
  {
    JoinTrimmed(pairs);
    SegmentsOfJoin(pairs, IsRustWhitespace);
    SegmentsOfJoin(pairs, IsBlank);
  }

  /** Joined plain pairs have nothing for the outer trim to remove. */
  lemma JoinTrimmed(pairs: seq<(string, string)>)
    requires PlainPairs(pairs)
    ensures Trim(JoinOpts(pairs), IsRustWhitespace) == JoinOpts(pairs)
  {
    JoinNoWhitespace(pairs);
    TrimNoop(JoinOpts(pairs), IsRustWhitespace);
  }

  /** A quoted value ends at its closing quote, commas inside included. */
  lemma QuotedScan(s: string, valueStart: nat, body: string, ws: char -> bool)
    requires valueStart + |body| + 2 <= |s| && IsQuote(s[valueStart])
    requires s[valueStart + 1..valueStart + 1 + |body|] == body && s[valueStart + 1 + |body|] == s[valueStart]
    requires s[valueStart] !in body && (|body| == 0 || body[|body| - 1] != '\\')
    ensures ScanEnd(s, valueStart, valueStart, false, '\0', ws)
      == ScanEnd(s, valueStart, valueStart + |body| + 2, false, s[valueStart], ws)
  {
    var q := s[valueStart];
    var close := valueStart + 1 + |body|;
    assert forall k :: valueStart + 1 <= k < close ==> s[k] == body[k - valueStart - 1];
    ScanQuoted(s, valueStart, valueStart + 1, close, q, ws);
    assert s[close - 1] != '\\' by {
      if |body| > 0 { assert s[close - 1] == body[|body| - 1]; }
    }
  }

  /** `key="value"` (or with single quotes) gives the value without its
      quotes, whatever commas and spaces it holds. */
  lemma QuotedOption(key: string, q: char, body: string, ws: char -> bool)
    requires WithinRustWhitespace(ws) && PlainKey(key) && IsQuote(q)
    requires q !in body && (|body| == 0 || body[|body| - 1] != '\\')
    ensures Segments(key + "=" + [q] + body + [q], ws) == [(key, body)]
  {
    QuotedSlices(key, q, body);
    QuotedSegments(key + "=" + [q] + body + [q], key, q, body, ws);
  }

  lemma QuotedSegments(s: string, key: string, q: char, body: string, ws: char -> bool)
    requires WithinRustWhitespace(ws) && PlainKey(key) && IsQuote(q)
    requires q !in body && (|body| == 0 || body[|body| - 1] != '\\')
    requires |s| == |key| + |body| + 3 && s[..|key|] == key && s[|key|] == '=' && s[|key| + 1] == q
    requires s[|key| + 2..|s| - 1] == body && s[|s| - 1] == q && s[|key| + 1..] == [q] + body + [q]
    ensures Segments(s, ws) == [(key, body)]
  {
    QuotedFacts(s, key, q, body, ws);
    SegmentsHeadOf(s, ws, |key|, |s|, key, body, "");
  }

  lemma QuotedFacts(s: string, key: string, q: char, body: string, ws: char -> bool)
    requires WithinRustWhitespace(ws) && PlainKey(key) && IsQuote(q)
    requires q !in body && (|body| == 0 || body[|body| - 1] != '\\')
    requires |s| == |key| + |body| + 3 && s[..|key|] == key && s[|key|] == '=' && s[|key| + 1] == q
    requires s[|key| + 2..|s| - 1] == body && s[|s| - 1] == q && s[|key| + 1..] == [q] + body + [q]
    ensures SegmentAt(s, ws, |key|, |s|, key, body, "")
  {
    QuotedValueFacts(s, |key| + 1, q, body, ws);
    KeyFacts(s, key, ws);
  }

  lemma QuotedSlices(key: string, q: char, body: string)
    ensures var s := key + "=" + [q] + body + [q];
      |s| == |key| + |body| + 3 && s[..|key|] == key && s[|key|] == '=' && s[|key| + 1] == q
      && s[|key| + 2..|s| - 1] == body && s[|s| - 1] == q && s[|key| + 1..] == [q] + body + [q]
  {
    var s := key + "=" + [q] + body + [q];
    assert s[..|key|] == key;
    assert s[|key| + 2..|s| - 1] == body;
    assert s[|key| + 1..] == [q] + body + [q];
  }

  /** A quoted value that ends the string is scanned to the end and comes
      out without its quotes. */
  lemma QuotedValueFacts(s: string, vs: nat, q: char, body: string, ws: char -> bool)
    requires WithinRustWhitespace(ws) && IsQuote(q)
    requires q !in body && (|body| == 0 || body[|body| - 1] != '\\')
    requires |s| == vs + |body| + 2 && s[vs] == q && s[vs + 1..|s| - 1] == body && s[|s| - 1] == q
    requires s[vs..] == [q] + body + [q]
    ensures ScanEnd(s, vs, vs, false, '\0', ws) == |s|
    ensures Unquote(Trim(s[vs..|s|], ws)) == body && Rest(s, |s|) == ""
  {
    QuotedScan(s, vs, body, ws);
    assert s[vs..|s|] == [q] + body + [q];
    TrimNoop([q] + body + [q], ws);
    assert ([q] + body + [q])[1..|body| + 1] == body;
  }

  /** Two plain options, as in the examples of src/options.rs. */
  lemma PlainOptsExample()
    ensures RustOpts("outline_width=0.0,font=Hiragino") == map["outline_width" := "0.0", "font" := "Hiragino"]
  {
    var pairs := [("outline_width", "0.0"), ("font", "Hiragino")];
    PlainExamplePairs();
    PlainExampleJoin();
    OptsRoundTrip(pairs, map[]);
    PlainExampleAssign();
  }

  lemma PlainExampleJoin()
    ensures JoinOpts([("outline_width", "0.0"), ("font", "Hiragino")]) == "outline_width=0.0,font=Hiragino"
  {
    JoinTwo(("outline_width", "0.0"), ("font", "Hiragino"));
  }

  lemma PlainExamplePairs()
    ensures PlainPairs([("outline_width", "0.0"), ("font", "Hiragino")])
  {
  }

  lemma PlainExampleAssign()
    ensures Assign(map[], [("outline_width", "0.0"), ("font", "Hiragino")]) == map["outline_width" := "0.0", "font" := "Hiragino"]
  {
  }

  /** An excluded key is dropped, the option beside it kept. */
  lemma ExcludedOptsExample()
    ensures var m := RustOpts("sub_type=bitmap,outline_width=0.0");
      "sub_type" !in m && m == map["outline_width" := "0.0"]
  {
    var pairs := [("sub_type", "bitmap"), ("outline_width", "0.0")];
    ExcludedExamplePairs();
    ExcludedExampleJoin();
    OptsRoundTrip(pairs, map[]);
    ExcludedExampleAssign();
  }

  lemma ExcludedExampleJoin()
    ensures JoinOpts([("sub_type", "bitmap"), ("outline_width", "0.0")]) == "sub_type=bitmap,outline_width=0.0"
  {
    JoinTwo(("sub_type", "bitmap"), ("outline_width", "0.0"));
  }

  lemma JoinTwo(a: (string, string), b: (string, string))
    ensures JoinOpts([a, b]) == a.0 + "=" + a.1 + "," + b.0 + "=" + b.1
  {
    assert [a, b][1..] == [b];
  }

  lemma ExcludedExamplePairs()
    ensures PlainPairs([("sub_type", "bitmap"), ("outline_width", "0.0")])
  {
  }

  lemma ExcludedExampleAssign()
    ensures Assign(map[], [("sub_type", "bitmap"), ("outline_width", "0.0")]) == map["outline_width" := "0.0"]
  {
    assert IsExcludedOpt("sub_type");
  }

  /** A quoted value keeps its spaces and loses its quotes. */
  lemma QuotedOptsExample()
    ensures RustOpts("font=\"Hiragino Maru Gothic ProN\"") == map["font" := "Hiragino Maru Gothic ProN"]
  {
    QuotedExampleSegments();
    QuotedExampleAssign();
  }

  lemma QuotedExampleSegments()
    ensures var s := "font=\"Hiragino Maru Gothic ProN\"";
      Segments(Trim(s, IsRustWhitespace), IsRustWhitespace) == [("font", "Hiragino Maru Gothic ProN")]
  {
    QuotedExampleSpelling();
    QuotedTrimmed("font", '"', "Hiragino Maru Gothic ProN", IsRustWhitespace);
  }

  /** A quoted option with no surrounding whitespace is untouched by trimming. */
  lemma QuotedTrimmed(key: string, q: char, body: string, ws: char -> bool)
    requires WithinRustWhitespace(ws) && PlainKey(key) && IsQuote(q) && key != []
    requires q !in body && (|body| == 0 || body[|body| - 1] != '\\')
    requires !ws(key[0]) && !ws(q)
    ensures Segments(Trim(key + "=" + [q] + body + [q], ws), ws) == [(key, body)]
  {
    QuotedEnds(key, q, body);
    TrimNoop(key + "=" + [q] + body + [q], ws);
    QuotedOption(key, q, body, ws);
  }

  lemma QuotedExampleSpelling()
    ensures "font=\"Hiragino Maru Gothic ProN\"" == "font" + "=" + ['"'] + "Hiragino Maru Gothic ProN" + ['"']
  {
    assert "font=\"Hiragino Maru Gothic ProN\"" == "font=\"" + "Hiragino Maru Gothic ProN" + "\"";
    assert "font=\"" == "font" + "=" + ['"'];
  }

  lemma QuotedEnds(key: string, q: char, body: string)
    requires key != []
    ensures var s := key + "=" + [q] + body + [q]; s[0] == key[0] && s[|s| - 1] == q
  {
  }

  lemma QuotedExampleAssign()
    ensures Assign(map[], [("font", "Hiragino Maru Gothic ProN")]) == map["font" := "Hiragino Maru Gothic ProN"]
  {
  }
}
