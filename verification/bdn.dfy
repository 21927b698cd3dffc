/** The BDN side of the converter: frame-exact `HH:MM:SS:FF` timecodes, the
    frame-rate attribute, XML text escaping, the VideoFormat lookup and the
    Sony BDN 0.93 document produced by `write_to_file`, for the Rust
    generator (src/bdn.rs) and the C++ one (src/bdn_xml_generator.cpp). */
module Bdn {
  import opened Wrappers
  import opened Text

  /** One graphic event: in/out timecodes, PNG file name, position and size. */
  datatype SubtitleEvent = SubtitleEvent(
    inTc: string, outTc: string, pngFile: string,
    x: int, y: int, width: int, height: int)

  /** Description/Format values. `fpsText` is the frame rate as `{:.3}` (Rust)
      or `fixed << setprecision(3)` (C++) renders it. */
  datatype BdnInfo = BdnInfo(fpsText: string, videoFormat: string)

  // ---------------------------------------------------------------------------
  // Timecodes

  /** `round()` on a non-negative value: halves go up. */
  function Round(x: real): (r: int)
    requires x >= 0.0
    ensures r >= 0
    ensures r as real - 0.5 <= x < r as real + 0.5
  {
    (x + 0.5).Floor
  }

  /** `fps.round() as i32`; at least 1 whenever fps >= 1/2. */
  function FpsInt(fps: real): (n: nat)
    requires fps >= 0.5
    ensures n >= 1
  {
    Round(fps)
  }

  /** `(seconds * fps).round()` after negative seconds are clamped to 0. */
  function TotalFrames(seconds: real, fps: real): nat
    requires fps >= 0.5
  {
    Round((if seconds < 0.0 then 0.0 else seconds) * fps)
  }

  datatype TcFields = TcFields(hours: nat, minutes: nat, secs: nat, frames: nat)

  /** Total frame count of a decomposition. */
  function FieldsToFrames(f: TcFields, fpsInt: nat): nat
  {
    ((f.hours * 60 + f.minutes) * 60 + f.secs) * fpsInt + f.frames
  }

  predicate InRange(f: TcFields, fpsInt: nat)
  {
    f.frames < fpsInt && f.secs < 60 && f.minutes < 60
  }

  /** Seconds-first split of a frame count into hours, minutes, seconds and
      frames; an independent reference for the source's hour-first split. */
  function Decompose(total: nat, fpsInt: nat): (f: TcFields)
    requires fpsInt >= 1
  {
    var totalSecs := total / fpsInt;
    var totalMins := totalSecs / 60;
    TcFields(totalMins / 60, totalMins % 60, totalSecs % 60, total % fpsInt)
  }
  lemma DecomposeCorrect(total: nat, fpsInt: nat)
    requires fpsInt >= 1
    ensures InRange(Decompose(total, fpsInt), fpsInt)
    ensures FieldsToFrames(Decompose(total, fpsInt), fpsInt) == total
  {
  }
  lemma MulMono(a: int, b: int, c: nat)
    ensures a <= b ==> a * c <= b * c
  {
  }
  lemma SmallMultiple(k: int, n: int)
    requires n >= 1 && -n < k * n < n
    ensures k == 0
  {
    MulMono(1, k, n);
    MulMono(k, -1, n);
  }
  lemma UniqueQuotient(q1: nat, r1: nat, q2: nat, r2: nat, n: nat)
    requires n >= 1 && r1 < n && r2 < n && q1 * n + r1 == q2 * n + r2
    ensures q1 == q2 && r1 == r2
  {
    assert (q1 - q2) * n == r2 - r1;
    SmallMultiple(q1 - q2, n);
  }
  lemma DecomposeUnique(total: nat, fpsInt: nat, g: TcFields)
    requires fpsInt >= 1
    requires InRange(g, fpsInt) && FieldsToFrames(g, fpsInt) == total
    ensures g == Decompose(total, fpsInt)
  {
    DecomposeCorrect(total, fpsInt);
    var f := Decompose(total, fpsInt);
    UniqueQuotient((g.hours * 60 + g.minutes) * 60 + g.secs, g.frames, (f.hours * 60 + f.minutes) * 60 + f.secs, f.frames, fpsInt);
    UniqueQuotient(g.hours * 60 + g.minutes, g.secs, f.hours * 60 + f.minutes, f.secs, 60);
    UniqueQuotient(g.hours, g.minutes, f.hours, f.minutes, 60);
  }
  /** The source's hour-first split. */
  lemma HourFirstSplit(total: nat, n: nat)
    requires n >= 1
    ensures var perMinute := n * 60; var perHour := perMinute * 60;
      var rem := total % perHour; var rem2 := rem % perMinute;
      var d := Decompose(total, n);
      total / perHour == d.hours && rem / perMinute == d.minutes && rem2 / n == d.secs && rem2 % n == d.frames
  {
    var perMinute := n * 60;
    var perHour := perMinute * 60;
    var h := total / perHour;
    var rem := total % perHour;
    var m := rem / perMinute;
    var rem2 := rem % perMinute;
    var s := rem2 / n;
    var fr := rem2 % n;
    DivModFacts(total, perHour);
    DivModFacts(rem, perMinute);
    DivModFacts(rem2, n);
    QuotientBound(rem, m, rem2, perMinute, 60);
    QuotientBound(rem2, s, fr, n, 60);
    var g := TcFields(h, m, s, fr);
    Distribute(h, m, s, n);
    assert FieldsToFrames(g, n) == total;
    DecomposeUnique(total, n, g);
  }
  lemma DivModFacts(a: nat, b: nat)
    requires b >= 1
    ensures a / b >= 0 && a == (a / b) * b + a % b && 0 <= a % b < b
  {
  }
  lemma QuotientBound(x: int, q: int, r: int, b: int, k: int)
    requires b >= 1 && r >= 0 && x == q * b + r && x < b * k
    ensures q < k
  {
    MulMono(k, q, b);
  }
  lemma Distribute(h: int, m: int, s: int, n: int)
    ensures ((h * 60 + m) * 60 + s) * n == h * ((n * 60) * 60) + m * (n * 60) + s * n
  {
  }

  function Pad2(n: nat): (s: string)
  {
    ZeroPad(NatToString(n), 2)
  }

  /** `{:02}:{:02}:{:02}:{:02}` / `setfill('0') << setw(2)` on each field. */
  function FormatTc(f: TcFields): (tc: string)
  {
    Colon(Pad2(f.hours), Colon(Pad2(f.minutes), Colon(Pad2(f.secs), Pad2(f.frames))))
  }

  function Colon(a: string, b: string): string { a + ":" + b }

  /** Timecode of a time in seconds: the specification `TimeToTc` meets. */
  function Tc(seconds: real, fps: real): string
    requires fps >= 0.5
  {
    FormatTc(Decompose(TotalFrames(seconds, fps), FpsInt(fps)))
  }

  /** time_to_tc as written: clamp, round, divide, then the carry branches. */
  method TimeToTc(seconds: real, fps: real) returns (tc: string)
    requires fps >= 0.5
    ensures tc == Tc(seconds, fps)
  {
    var s := seconds;
    if s < 0.0 {
      s := 0.0;
    }
    var totalFrames := Round(s * fps);
    assert totalFrames == TotalFrames(seconds, fps);
    var fpsInt := Round(fps);
    var framesPerHour := fpsInt * 3600;
    var framesPerMinute := fpsInt * 60;

    var hours := totalFrames / framesPerHour;
    var remaining := totalFrames % framesPerHour;
    var minutes := remaining / framesPerMinute;
    remaining := remaining % framesPerMinute;
    var secs := remaining / fpsInt;
    var frames := remaining % fpsInt;

    if secs >= 60 {
      minutes := minutes + secs / 60;
      secs := secs % 60;
    }
    if minutes >= 60 {
      hours := hours + minutes / 60;
      minutes := minutes % 60;
    }
    // The split already leaves seconds and minutes below 60: neither carry applies.
    HourFirstSplit(totalFrames, fpsInt);
    tc := FormatTc(TcFields(hours, minutes, secs, frames));
  }

  predicate IsField(p: string) { p != [] && AllDigits(p) }

  /** Reads a timecode back into its four fields. */
  function ParseTc(tc: string): Option<TcFields>
  {
    var parts := Split(tc, ':');
    if |parts| == 4 && IsField(parts[0]) && IsField(parts[1]) && IsField(parts[2]) && IsField(parts[3]) then
      Some(TcFields(DigitsValue(parts[0]), DigitsValue(parts[1]), DigitsValue(parts[2]), DigitsValue(parts[3])))
    else None
  }

  lemma Pad2Value(n: nat)
    ensures Pad2(n) != [] && AllDigits(Pad2(n)) && DigitsValue(Pad2(n)) == n
    ensures ':' !in Pad2(n)
  {
    NatToStringValue(n);
    ZeroPadValue(NatToString(n), 2);
  }

  /** Every field of a timecode reads back exactly. */
  lemma FormatTcRoundTrip(f: TcFields)
    ensures ParseTc(FormatTc(f)) == Some(f)
  {
    Pad2Value(f.hours);
    Pad2Value(f.minutes);
    Pad2Value(f.secs);
    Pad2Value(f.frames);
    ParseFields(Pad2(f.hours), Pad2(f.minutes), Pad2(f.secs), Pad2(f.frames));
  }

  lemma ParseFields(a: string, b: string, c: string, d: string)
    requires IsField(a) && IsField(b) && IsField(c) && IsField(d)
    requires ':' !in a && ':' !in b && ':' !in c && ':' !in d
    ensures ParseTc(Colon(a, Colon(b, Colon(c, d))))
         == Some(TcFields(DigitsValue(a), DigitsValue(b), DigitsValue(c), DigitsValue(d)))
  {
    Split4(a, b, c, d);
  }

  lemma Split4(a: string, b: string, c: string, d: string)
    requires ':' !in a && ':' !in b && ':' !in c && ':' !in d
    ensures Split(Colon(a, Colon(b, Colon(c, d))), ':') == [a, b, c, d]
  {
    var cd := Colon(c, d);
    var bcd := Colon(b, cd);
    assert Split(d, ':') == [d];
    SplitColon(c, d);
    assert Split(cd, ':') == [c, d];
    SplitColon(b, cd);
    assert Split(bcd, ':') == [b, c, d];
    SplitColon(a, bcd);
    ConsFour(a, b, c, d);
  }

  lemma ConsFour<T>(x: T, y: T, z: T, w: T)
    ensures [x] + [y, z, w] == [x, y, z, w]
  {
  }

  lemma SplitColon(a: string, rest: string)
    requires ':' !in a
    ensures Split(Colon(a, rest), ':') == [a] + Split(rest, ':')
  {
    assert Colon(a, rest) == a + [':'] + rest;
    SplitJoin(a, ':', rest);
  }

  /** The timecode string encodes the rounded frame count of the time
      exactly: reading it back and recombining the fields gives it. */
  lemma TcEncodesFrames(seconds: real, fps: real)
    requires fps >= 0.5
    ensures ParseTc(Tc(seconds, fps)).Some?
    ensures var f := ParseTc(Tc(seconds, fps)).value;
      InRange(f, FpsInt(fps)) && FieldsToFrames(f, FpsInt(fps)) == TotalFrames(seconds, fps)
  {
    DecomposeCorrect(TotalFrames(seconds, fps), FpsInt(fps));
    FormatTcRoundTrip(Decompose(TotalFrames(seconds, fps), FpsInt(fps)));
  }

  /** Negative times are clamped: they render as the zero timecode. */
  lemma NegativeTimeIsZero(seconds: real, fps: real)
    requires fps >= 0.5 && seconds < 0.0
    ensures Tc(seconds, fps) == "00:00:00:00"
  {
    assert TotalFrames(seconds, fps) == 0;
    assert Decompose(0, FpsInt(fps)) == TcFields(0, 0, 0, 0);
  }

  /** The two cases of the unit test of time_to_tc. */
  lemma TimeToTcExamples()
    ensures Tc(0.0, 29.97) == "00:00:00:00"
    ensures Tc(1.0, 30.0) == "00:00:01:00"
  {
    assert FpsInt(29.97) == 30;
    assert TotalFrames(0.0, 29.97) == 0;
    assert Decompose(0, 30) == TcFields(0, 0, 0, 0);
    assert FpsInt(30.0) == 30;
    assert TotalFrames(1.0, 30.0) == 30;
    assert Decompose(30, 30) == TcFields(0, 0, 1, 0);
    assert Pad2(1) == "01";
  }

  /** adjust_timestamp: the stream start becomes time zero. */
  function AdjustTimestamp(timestamp: real, startTime: real): (r: real)
    ensures r + startTime == timestamp
  {
    timestamp - startTime
  }

  // ---------------------------------------------------------------------------
  // Frame rate and video format

  /** format_fps, given the `{:.3}` rendering: the two common rates get their
      short form, any other rendering is kept. */
  function FormatFps(fixed3: string): (r: string)
    ensures |r| <= |fixed3|
    ensures r != fixed3 <==> fixed3 == "29.970" || fixed3 == "24.000"
    ensures r != fixed3 ==>
      IsPrefix(r, fixed3) && |r| > 0 && r[|r| - 1] != '0' && r[|r| - 1] != '.'
      && forall k :: |r| <= k < |fixed3| ==> fixed3[k] == '0' || fixed3[k] == '.'
    ensures fixed3 == "29.970" ==> r == "29.97"
    ensures fixed3 == "24.000" ==> r == "24"
  {
    match fixed3
    case "29.970" => "29.97"
    case "24.000" => "24"
    case _ => fixed3
  }

  /** The short form names the same decimal value as the 3-decimal rendering. */
  lemma FormatFpsKeepsValue(fixed3: string)
    ensures ParseDecimal(FormatFps(fixed3)) == ParseDecimal(fixed3)
  {
    if fixed3 == "29.970" {
      NtscRateValue();
    } else if fixed3 == "24.000" {
      FilmRateValue();
    }
  }

  lemma NtscRateValue()
    ensures ParseDecimal("29.97") == ParseDecimal("29.970") == Some(29.97)
  {
    NtscLong();
    NtscShort();
  }

  lemma NtscLong()
    ensures ParseDecimal("29.970") == Some(29.97)
  {
    DecimalValue("29", "970");
    JoinNtscLong();
    RateDigits();
    FractionDigits();
  }

  lemma NtscShort()
    ensures ParseDecimal("29.97") == Some(29.97)
  {
    DecimalValue("29", "97");
    JoinNtscShort();
    RateDigits();
    FractionDigits();
  }

  lemma FilmRateValue()
    ensures ParseDecimal("24") == ParseDecimal("24.000") == Some(24.0)
  {
    FilmLong();
    FilmShort();
  }

  lemma FilmLong()
    ensures ParseDecimal("24.000") == Some(24.0)
  {
    DecimalValue("24", "000");
    JoinFilmLong();
    RateDigits();
    FractionDigits();
  }

  lemma FilmShort()
    ensures ParseDecimal("24") == Some(24.0)
  {
    RateDigits();
    assert SignAndDigits("24") == (false, "24");
    assert IndexOf("24", '.') == None;
    assert AllDigits("24") && AllDigits("") && FractionValue("") == 0.0;
  }

  lemma JoinNtscLong() ensures "29" + "." + "970" == "29.970" {}
  lemma JoinNtscShort() ensures "29" + "." + "97" == "29.97" {}
  lemma JoinFilmLong() ensures "24" + "." + "000" == "24.000" {}

  lemma FractionDigits()
    ensures AllDigits("970") && FractionValue("970") == 0.97
    ensures AllDigits("97") && FractionValue("97") == 0.97
    ensures AllDigits("000") && FractionValue("000") == 0.0
  {
    assert "970"[1..] == "70" && "70"[1..] == "0" && "0"[1..] == "";
    assert "97"[1..] == "7" && "7"[1..] == "";
    assert "000"[1..] == "00" && "00"[1..] == "0";
  }

  lemma RateDigits()
    ensures DigitsValue("970") == 970 && DigitsValue("97") == 97 && DigitsValue("29") == 29
    ensures DigitsValue("000") == 0 && DigitsValue("24") == 24
  {
    assert "970"[..2] == "97" && "97"[..1] == "9" && "9"[..0] == "";
    assert "29"[..1] == "2" && "2"[..0] == "";
    assert "000"[..2] == "00" && "00"[..1] == "0" && "0"[..0] == "";
    assert "24"[..1] == "2";
  }

  lemma DecimalValue(whole: string, frac: string)
    requires |whole| > 0 && AllDigits(whole)
    ensures ParseDecimal(whole + "." + frac) == DecimalOf(false, whole, frac)
  {
    var s := whole + "." + frac;
    assert s[0] == whole[0];
    assert s[..|whole|] == whole && s[|whole| + 1..] == frac;
    assert forall k :: 0 <= k < |whole| ==> whole[k] != '.';
    IndexOfAt(s, '.', |whole|);
  }

  /** determine_video_format (C++ only): 1080 and 480 lines honour the
      interlace flag, 720 lines are always progressive, anything else falls
      back to "1080p". */
  function DetermineVideoFormat(canvasHeight: int, interlaced: bool): (r: string)
    ensures r in {"1080i", "1080p", "720p", "480i", "480p"}
    ensures canvasHeight in {1080, 720, 480} ==> r[..|r| - 1] == IntToString(canvasHeight)
    ensures canvasHeight !in {1080, 720, 480} ==> r == "1080p"
    ensures r[|r| - 1] == 'i' <==> interlaced && (canvasHeight == 1080 || canvasHeight == 480)
  {
    if canvasHeight == 1080 then (if interlaced then "1080i" else "1080p")
    else if canvasHeight == 720 then "720p"
    else if canvasHeight == 480 then (if interlaced then "480i" else "480p")
    else "1080p"
  }

  // ---------------------------------------------------------------------------
  // XML escaping

  function EscapeChar(c: char): string
  {
    match c
    case '&' => "&amp;"
    case '<' => "&lt;"
    case '>' => "&gt;"
    case '"' => "&quot;"
    case '\'' => "&apos;"
    case _ => [c]
  }

  predicate IsSpecial(c: char) { c in "&<>\"'" }

  /** The escaped text, character by character. */
  function Escaped(s: string): (r: string)
    ensures |r| >= |s|
  {
    if s == [] then [] else EscapeChar(s[0]) + Escaped(s[1..])
  }

  lemma {:induction false} EscapedAppend(s: string, c: char)
    ensures Escaped(s + [c]) == Escaped(s) + EscapeChar(c)
  {
    if s != [] {
      assert (s + [c])[1..] == s[1..] + [c];
      EscapedAppend(s[1..], c);
    } else {
      assert Escaped([c]) == EscapeChar(c) + Escaped([]);
    }
  }

  /** xml_escape as written: one pass that appends each character or its entity. */
  method XmlEscape(s: string) returns (out: string)
    ensures out == Escaped(s)
  {
    out := [];
    var i := 0;
    while i < |s|
      invariant 0 <= i <= |s|
      invariant out == Escaped(s[..i])
    {
      var c := s[i];
      if c == '&' {
        out := out + "&amp;";
      } else if c == '<' {
        out := out + "&lt;";
      } else if c == '>' {
        out := out + "&gt;";
      } else if c == '"' {
        out := out + "&quot;";
      } else if c == '\'' {
        out := out + "&apos;";
      } else {
        out := out + [c];
      }
      assert s[..i + 1] == s[..i] + [c];
      EscapedAppend(s[..i], c);
      i := i + 1;
    }
    assert s[..i] == s;
  }

  /** Escaped text has no raw `<`, `>`, `"` or `'`. */
  lemma {:induction false} EscapedHasNoMarkup(s: string)
    ensures forall c :: c in Escaped(s) ==> c !in "<>\"'"
  {
    if s != [] {
      EscapedHasNoMarkup(s[1..]);
    }
  }

  /** Escaping changes a string exactly when it holds one of the five characters. */
  lemma {:induction false} EscapedIdentity(s: string)
    ensures Escaped(s) == s <==> forall c :: c in s ==> !IsSpecial(c)
  {
    if s != [] {
      EscapedIdentity(s[1..]);
      if IsSpecial(s[0]) {
        assert |Escaped(s)| > |s| by {
          assert |EscapeChar(s[0])| >= 4;
        }
      } else {
        assert s == [s[0]] + s[1..];
      }
    }
  }

  /** The standard unescape of the five predefined entities. */
  function Unescape(s: string): string
    decreases |s|
  {
    if s == [] then []
    else if IsPrefix("&amp;", s) then "&" + Unescape(s[5..])
    else if IsPrefix("&lt;", s) then "<" + Unescape(s[4..])
    else if IsPrefix("&gt;", s) then ">" + Unescape(s[4..])
    else if IsPrefix("&quot;", s) then "\"" + Unescape(s[6..])
    else if IsPrefix("&apos;", s) then "'" + Unescape(s[6..])
    else [s[0]] + Unescape(s[1..])
  }

  /** Unescaping the escaped text recovers the input. */
  lemma {:induction false} UnescapeEscaped(s: string)
    ensures Unescape(Escaped(s)) == s
  {
    if s != [] {
      UnescapeEscaped(s[1..]);
      UnescapeStep(s[0], Escaped(s[1..]));
      assert s == [s[0]] + s[1..];
    }
  }

  /** Unescape consumes one escaped character at a time. */
  lemma UnescapeStep(c: char, rest: string)
    ensures Unescape(EscapeChar(c) + rest) == [c] + Unescape(rest)
  {
    var e := EscapeChar(c) + rest;
    if IsSpecial(c) {
      assert e[..|EscapeChar(c)|] == EscapeChar(c);
      assert e[|EscapeChar(c)|..] == rest;
      if c == '&' {
        assert IsPrefix("&amp;", e);
      } else if c == '<' {
        assert !IsPrefix("&amp;", e) by { assert e[1] == 'l'; }
        assert IsPrefix("&lt;", e);
      } else if c == '>' {
        assert !IsPrefix("&amp;", e) && !IsPrefix("&lt;", e) by { assert e[1] == 'g'; }
        assert IsPrefix("&gt;", e);
      } else if c == '"' {
        assert !IsPrefix("&amp;", e) && !IsPrefix("&lt;", e) && !IsPrefix("&gt;", e) by { assert e[1] == 'q'; }
        assert IsPrefix("&quot;", e);
      } else {
        assert !IsPrefix("&amp;", e) && !IsPrefix("&lt;", e) && !IsPrefix("&gt;", e)
            && !IsPrefix("&quot;", e) by { assert e[1] == 'a' && e[2] == 'p'; }
        assert IsPrefix("&apos;", e);
      }
    } else {
      assert e[0] == c && e[1..] == rest;
      assert !IsPrefix("&amp;", e) && !IsPrefix("&lt;", e) && !IsPrefix("&gt;", e)
          && !IsPrefix("&quot;", e) && !IsPrefix("&apos;", e) by { assert e[0] != '&'; }
    }
  }

  /** The unit-test case of xml_escape. */
  lemma XmlEscapeExample()
    ensures Escaped("a<b") == "a&lt;b"
  {
    assert "a<b" == "a" + ['<'] + "b";
    EscapeSplit("a", '<', "b");
    EscapedIdentity("a");
    EscapedIdentity("b");
  }

  /** Escaping is applied once per field: an already escaped `&amp;` has its
      `&` escaped again. */
  lemma XmlEscapeAmpExample()
    ensures Escaped("a&amp;b") == "a&amp;amp;b"
  {
    AmpJoins();
    EscapeSplit("a", '&', "amp;b");
    EscapedIdentity("a");
    PlainTail();
  }

  lemma AmpJoins()
    ensures "a&amp;b" == "a" + ['&'] + "amp;b"
    ensures "a" + "&amp;" + "amp;b" == "a&amp;amp;b"
  {
  }

  lemma PlainTail()
    ensures Escaped("amp;b") == "amp;b"
  {
    assert forall c :: c in "amp;b" ==> c in {'a', 'm', 'p', ';', 'b'};
    EscapedIdentity("amp;b");
  }

  /** Escaping is not idempotent: an escaped `&` is escaped again. */
  lemma EscapeNotIdempotent()
    ensures Escaped(Escaped("&")) != Escaped("&")
  {
    EscapeSplit([], '&', []);
    assert Escaped("&") == "&amp;";
    EscapedIdentity("&amp;");
    assert IsSpecial("&amp;"[0]);
  }

  lemma EscapeSplit(a: string, c: char, b: string)
    ensures Escaped(a + [c] + b) == Escaped(a) + EscapeChar(c) + Escaped(b)
  {
    EscapedConcat(a, [c] + b);
    assert a + [c] + b == a + ([c] + b);
    assert ([c] + b)[1..] == b;
  }

  lemma {:induction false} EscapedConcat(a: string, b: string)
    ensures Escaped(a + b) == Escaped(a) + Escaped(b)
  {
    if a != [] {
      var ab := a + b;
      assert ab != [] && ab[0] == a[0] && ab[1..] == a[1..] + b;
      EscapedConcat(a[1..], b);
      var e := EscapeChar(a[0]);
      assert Escaped(ab) == e + (Escaped(a[1..]) + Escaped(b));
      assert Escaped(a) == e + Escaped(a[1..]);
    } else {
      assert a + b == b;
    }
  }

  // ---------------------------------------------------------------------------
  // The document

  /** The values of the Rust description's Events element. */
  datatype Summary = Summary(firstInTc: string, lastOutTc: string, count: nat)

  /** FirstEventInTC is the first event's InTC and LastEventOutTC the last
      event's OutTC, both the zero timecode when there is no event. */
  function SummaryOf(events: seq<SubtitleEvent>): (s: Summary)
    ensures s.count == |events|
    ensures |events| == 0 ==> s.firstInTc == "00:00:00:00" && s.lastOutTc == "00:00:00:00"
    ensures |events| > 0 ==> s.firstInTc == events[0].inTc && s.lastOutTc == events[|events| - 1].outTc
  {
    if |events| == 0 then Summary("00:00:00:00", "00:00:00:00", 0)
    else Summary(events[0].inTc, events[|events| - 1].outTc, |events|)
  }

  /** Appending an event keeps the first InTC, takes the new OutTC and counts one more. */
  lemma SummaryAfterAdd(events: seq<SubtitleEvent>, e: SubtitleEvent)
    ensures SummaryOf(events + [e]).count == SummaryOf(events).count + 1
    ensures SummaryOf(events + [e]).lastOutTc == e.outTc
    ensures SummaryOf(events + [e]).firstInTc
         == if events == [] then e.inTc else SummaryOf(events).firstInTc
  {
  }

  function EventOpen(e: SubtitleEvent): string
  {
    "    <Event InTC=\"" + Escaped(e.inTc) + "\" OutTC=\"" + Escaped(e.outTc) + "\" Forced=\"False\">"
  }

  function GraphicLine(e: SubtitleEvent): string
  {
    "      <Graphic Width=\"" + IntToString(e.width) + "\" Height=\"" + IntToString(e.height)
      + "\" X=\"" + IntToString(e.x) + "\" Y=\"" + IntToString(e.y) + "\">"
      + Escaped(e.pngFile) + "</Graphic>"
  }

  const EventClose: string := "    </Event>"

  /** The Event element of one event, line by line; the same text in both versions. */
  function EventLines(e: SubtitleEvent): (lines: seq<string>)
  {
    [EventOpen(e), GraphicLine(e), EventClose]
  }

  /** One Event element per event, in insertion order. */
  function AllEventLines(events: seq<SubtitleEvent>): seq<string>
  {
    Blocks(events, EventLines)
  }

  /** The blocks of `f` for each element, in order. */
  function Blocks<T>(xs: seq<T>, f: T -> seq<string>): seq<string>
  {
    if xs == [] then [] else Blocks(xs[..|xs| - 1], f) + f(xs[|xs| - 1])
  }

  /** With three lines per element, element k occupies lines 3k to 3k+2. */
  lemma {:induction false} BlocksLayout<T>(xs: seq<T>, f: T -> seq<string>)
    requires forall x :: |f(x)| == 3
    ensures |Blocks(xs, f)| == 3 * |xs|
    ensures forall k, j :: 0 <= k < |xs| && 0 <= j < 3 ==> Blocks(xs, f)[3 * k + j] == f(xs[k])[j]
  {
    if xs != [] {
      var init, last := xs[..|xs| - 1], xs[|xs| - 1];
      BlocksLayout(init, f);
      var front := Blocks(init, f);
      assert Blocks(xs, f) == front + f(last);
      forall k, j | 0 <= k < |xs| && 0 <= j < 3
        ensures (front + f(last))[3 * k + j] == f(xs[k])[j]
      {
        if k < |init| {
          assert init[k] == xs[k];
        }
      }
    }
  }

  /** Event k occupies lines 3k to 3k+2 of the event block. */
  lemma AllEventLinesLayout(events: seq<SubtitleEvent>)
    ensures |AllEventLines(events)| == 3 * |events|
    ensures forall k, j :: 0 <= k < |events| && 0 <= j < 3 ==>
      AllEventLines(events)[3 * k + j] == EventLines(events[k])[j]
  {
    BlocksLayout(events, EventLines);
  }

  function RustFormatLine(info: BdnInfo): string
  {
    "    <Format VideoFormat=\"" + info.videoFormat + "\" FrameRate=\""
      + FormatFps(info.fpsText) + "\" DropFrame=\"False\"/>"
  }

  function SummaryLine(s: Summary): string
  {
    "    <Events Type=\"Graphic\" FirstEventInTC=\"" + Escaped(s.firstInTc)
      + "\" LastEventOutTC=\"" + Escaped(s.lastOutTc)
      + "\" NumberofEvents=\"" + NatToString(s.count) + "\"/>"
  }

  const XmlDeclaration: string := "<?xml version=\"1.0\" encoding=\"UTF-8\"?>"
  const RustRoot: string := "<BDN Version=\"0.93\" xmlns:xsi=\"http://www.w3.org/2001/XMLSchema-instance\" xsi:noNamespaceSchemaLocation=\"BD-03-006-0093b BDN File Format.xsd\">"
  const CppRoot: string := "<BDN Version=\"0.93\" xmlns:xsi=\"http://www.w3.org/2001/XMLSchema-instance\" xsi:noNamespaceSchemaLocation=\"BDN.xsd\">"
  const Footer: seq<string> := ["  </Events>", "</BDN>"]

  /** The description part of the Rust document. */
  function RustHead(info: BdnInfo, summary: Summary): (head: seq<string>)
    ensures |head| == 9 && head[5] == RustFormatLine(info) && head[6] == SummaryLine(summary)
  {
    [ XmlDeclaration, RustRoot, "  <Description>",
      "    <Name Title=\"BDN Subtitle\" Content=\"\"/>", "    <Language Code=\"und\"/>",
      RustFormatLine(info), SummaryLine(summary),
      "  </Description>", "  <Events>" ]
  }

  /** The lines write_to_file writes in src/bdn.rs. */
  function RustLines(info: BdnInfo, events: seq<SubtitleEvent>): seq<string>
  {
    RustHead(info, SummaryOf(events)) + AllEventLines(events) + Footer
  }

  function CppFormatLine(info: BdnInfo): string
  {
    "    <Format VideoFormat=\"" + info.videoFormat + "\" FrameRate=\""
      + info.fpsText + "\" DropFrame=\"False\"/>"
  }

  /** The lines write_to_file writes in src/bdn_xml_generator.cpp: no Events
      summary element and the 3-decimal frame rate as it is. */
  function CppLines(info: BdnInfo, events: seq<SubtitleEvent>): seq<string>
  {
    CppHead(info) + AllEventLines(events) + Footer
  }

  /** The description part of the C++ document. */
  function CppHead(info: BdnInfo): (head: seq<string>)
    ensures |head| == 8 && head[5] == CppFormatLine(info)
  {
    [ XmlDeclaration, CppRoot, "  <Description>",
      "    <Name Title=\"BDN Subtitle\"/>", "    <Language Code=\"und\"/>",
      CppFormatLine(info), "  </Description>", "  <Events>" ]
  }

  /** The document written to disk: every line followed by a newline. */
  function Document(lines: seq<string>): string
  {
    if lines == [] then [] else Document(lines[..|lines| - 1]) + lines[|lines| - 1] + "\n"
  }

  /** Writing two runs of lines one after the other writes their texts one
      after the other. */
  lemma {:induction false} DocumentAppend(a: seq<string>, b: seq<string>)
    ensures Document(a + b) == Document(a) + Document(b)
    decreases |b|
  {
    if b == [] {
      assert a + b == a;
    } else {
      var b' := b[..|b| - 1];
      assert (a + b)[..|a + b| - 1] == a + b';
      DocumentAppend(a, b');
    }
  }

  /** Lines holding no newline of their own are written as exactly that many
      newline-terminated lines. */
  lemma {:induction false} DocumentNewlines(lines: seq<string>)
    requires forall i :: 0 <= i < |lines| ==> '\n' !in lines[i]
    ensures CountChar(Document(lines), '\n') == |lines|
    ensures lines != [] ==> Document(lines)[|Document(lines)| - 1] == '\n'
    decreases |lines|
  {
    if lines != [] {
      var init, last := lines[..|lines| - 1], lines[|lines| - 1];
      DocumentNewlines(init);
      CountCharAppend(Document(init) + last, "\n", '\n');
      CountCharAppend(Document(init), last, '\n');
      CountAbsent(last, '\n');
      assert CountChar("\n", '\n') == 1 by { assert "\n"[1..] == []; }
    }
  }

  /** A head, a body and a footer are written as the head's text followed
      by the text of the rest. */
  lemma DocumentThree(head: seq<string>, body: seq<string>, foot: seq<string>)
    ensures Document(head + body + foot) == Document(head) + Document(body + foot)
  {
    assert head + body + foot == head + (body + foot);
    DocumentAppend(head, body + foot);
  }

  /** Both written files are their description lines followed by the same
      text: the Event elements in insertion order and the closing tags. */
  lemma WrittenDocuments(info: BdnInfo, events: seq<SubtitleEvent>)
    ensures Document(RustLines(info, events))
         == Document(RustHead(info, SummaryOf(events))) + Document(AllEventLines(events) + Footer)
    ensures Document(CppLines(info, events))
         == Document(CppHead(info)) + Document(AllEventLines(events) + Footer)
  {
    DocumentThree(RustHead(info, SummaryOf(events)), AllEventLines(events), Footer);
    DocumentThree(CppHead(info), AllEventLines(events), Footer);
  }

  /** The Rust document: nine description lines with the Events summary at
      line 6, three lines per event in insertion order, two closing lines. */
  lemma RustLayout(info: BdnInfo, events: seq<SubtitleEvent>)
    ensures |RustLines(info, events)| == 11 + 3 * |events|
    ensures RustLines(info, events)[5] == RustFormatLine(info)
    ensures RustLines(info, events)[6] == SummaryLine(SummaryOf(events))
    ensures forall k, j :: 0 <= k < |events| && 0 <= j < 3 ==>
      RustLines(info, events)[9 + 3 * k + j] == EventLines(events[k])[j]
    ensures RustLines(info, events)[9..] == AllEventLines(events) + Footer
  {
    var head, body := RustHead(info, SummaryOf(events)), AllEventLines(events);
    AllEventLinesLayout(events);
    ThreePartLayout(head, body, Footer);
  }

  /** Indexing into a three-part concatenation past its first part. */
  lemma ThreePartLayout(head: seq<string>, body: seq<string>, tail: seq<string>)
    ensures |head + body + tail| == |head| + |body| + |tail|
    ensures (head + body + tail)[|head|..] == body + tail
    ensures forall i :: 0 <= i < |head| ==> (head + body + tail)[i] == head[i]
    ensures forall i :: 0 <= i < |body| ==> (head + body + tail)[|head| + i] == body[i]
  {
  }

  /** The C++ document: eight description lines without a summary, then the
      same event and closing lines as the Rust one. */
  lemma CppLayout(info: BdnInfo, events: seq<SubtitleEvent>)
    ensures |CppLines(info, events)| == 10 + 3 * |events|
    ensures CppLines(info, events)[5] == CppFormatLine(info)
    ensures forall k, j :: 0 <= k < |events| && 0 <= j < 3 ==>
      CppLines(info, events)[8 + 3 * k + j] == EventLines(events[k])[j]
    ensures CppLines(info, events)[8..] == RustLines(info, events)[9..]
  {
    var head, body := CppHead(info), AllEventLines(events);
    AllEventLinesLayout(events);
    ThreePartLayout(head, body, Footer);
    RustLayout(info, events);
  }

  /** For the NTSC rate the two Format lines differ: "29.97" against "29.970". */
  lemma FrameRateDiffers(videoFormat: string)
    ensures RustFormatLine(BdnInfo("29.970", videoFormat)) != CppFormatLine(BdnInfo("29.970", videoFormat))
  {
    var p := "    <Format VideoFormat=\"" + videoFormat + "\" FrameRate=\"";
    var q := "\" DropFrame=\"False\"/>";
    assert RustFormatLine(BdnInfo("29.970", videoFormat)) == p + "29.97" + q;
    assert CppFormatLine(BdnInfo("29.970", videoFormat)) == p + "29.970" + q;
  }

  /** The generator: its description values and the events added so far. */
  class BdnXmlGenerator {
    const info: BdnInfo
    var events: seq<SubtitleEvent>

    constructor (info: BdnInfo)
      ensures this.info == info && events == []
    {
      this.info := info;
      events := [];
    }

    /** add_event: appends a copy at the end; earlier events are unchanged. */
    method AddEvent(e: SubtitleEvent)
      modifies this
      ensures events == old(events) + [e]
      ensures AllEventLines(events) == AllEventLines(old(events)) + EventLines(e)
      ensures SummaryOf(events).lastOutTc == e.outTc
    {
      events := events + [e];
      assert events[..|events| - 1] == old(events);
    }
  }
}
