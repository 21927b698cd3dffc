/** Output resolution and libaribcaption defaults: determine_canvas_size,
    parse_canvas_size and setup_libaribcaption_defaults of src/config.rs,
    and their counterparts in src/main.cpp. */
module Config {
  import opened Wrappers
  import opened Text

  // ---------------------------------------------------------------------------
  // Canvas size

  const DefaultCanvas: string := "1920x1080"

  /** The four canvas sizes libaribcaption is asked for. */
  predicate IsCanvas(c: string)
  {
    c == "1920x1080" || c == "1440x1080" || c == "1280x720" || c == "720x480"
  }

  /** determine_canvas_size of src/config.rs (its debug messages aside):
      unknown dimensions (0x0) and full HD give the default canvas, 1440x1080
      keeps its size only when anamorphic output is asked for, 1280x720 and
      720x480 keep theirs, anything else is an error. */
  function DetermineCanvasSize(videoWidth: int, videoHeight: int, anamorphic: bool): (r: Result<string>)
    ensures r.Ok? ==> IsCanvas(r.value)
  {
    if (videoWidth == 0 && videoHeight == 0) || (videoWidth == 1920 && videoHeight == 1080) then Ok(DefaultCanvas)
    else if videoWidth == 1280 && videoHeight == 720 then Ok("1280x720")
    else if videoWidth == 1440 && videoHeight == 1080 then Ok(if anamorphic then "1440x1080" else DefaultCanvas)
    else if videoWidth == 720 && videoHeight == 480 then Ok("720x480")
    else Err("Unsupported video resolution: " + IntToString(videoWidth) + "x" + IntToString(videoHeight)
             + ". Supported: 1920x1080, 1440x1080, 1280x720, 720x480.")
  }

  /** The video dimensions the Rust version accepts. */
  predicate RustSupported(w: int, h: int)
  {
    (w, h) == (0, 0) || (w, h) == (1920, 1080) || (w, h) == (1440, 1080) || (w, h) == (1280, 720) || (w, h) == (720, 480)
  }

  /** The canvas the video is drawn on: its own size, except that unknown
      dimensions and non-anamorphic 1440x1080 are drawn on full HD. */
  function CanvasDims(w: int, h: int, anamorphic: bool): (int, int)
  {
    if (w, h) == (0, 0) || ((w, h) == (1440, 1080) && !anamorphic) then (1920, 1080) else (w, h)
  }

  /** parse_canvas_size of src/config.rs: the text is split at every 'x';
      the first two pieces are trimmed and read as i32 (the first is read
      before the second is looked for), and a third piece is an error. */
  function ParseCanvasSize(s: string): (r: Result<(int, int)>)
    ensures r.Ok? ==> I32Min <= r.value.0 <= I32Max && I32Min <= r.value.1 <= I32Max
  {
    var parts := Split(s, 'x');
    match ParseI32(Trim(parts[0], IsRustWhitespace))
    case None => Err(InvalidInteger)
    case Some(w) =>
      if |parts| < 2 then Err("invalid canvas_size format")
      else match ParseI32(Trim(parts[1], IsRustWhitespace))
        case None => Err(InvalidInteger)
        case Some(h) =>
          if |parts| > 2 then Err("invalid canvas_size format: " + s) else Ok((w, h))
  }

  /** Stands for the message of Rust's ParseIntError. */
  const InvalidInteger: string := "invalid digit found in string"

  /** How a canvas size is written. */
  function CanvasString(w: int, h: int): string
  {
    IntToString(w) + "x" + IntToString(h)
  }

  /** The Rust version accepts exactly the five known dimensions. */
  lemma DetermineCanvasSizeSupported(w: int, h: int, anamorphic: bool)
    ensures DetermineCanvasSize(w, h, anamorphic).Ok? <==> RustSupported(w, h)
    ensures DetermineCanvasSize(w, h, anamorphic) == Ok("1440x1080") <==> (w, h) == (1440, 1080) && anamorphic
  {
  }

  /** The canvas the Rust version picks reads back as the dimensions the
      video is drawn on. */
  lemma DetermineCanvasSizeRoundTrip(w: int, h: int, anamorphic: bool)
    requires DetermineCanvasSize(w, h, anamorphic).Ok?
    ensures ParseCanvasSize(DetermineCanvasSize(w, h, anamorphic).value) == Ok(CanvasDims(w, h, anamorphic))
  {
    var c := DetermineCanvasSize(w, h, anamorphic).value;
    CanvasDimsOf(w, h, anamorphic);
    RustCanvasParses(c);
  }

  /** The canvas picked has the dimensions the video is drawn on. */
  lemma CanvasDimsOf(w: int, h: int, anamorphic: bool)
    requires DetermineCanvasSize(w, h, anamorphic).Ok?
    ensures var c := DetermineCanvasSize(w, h, anamorphic).value;
      (CanvasWidth(c), CanvasHeight(c)) == CanvasDims(w, h, anamorphic)
  {
  }

  function CanvasWidth(c: string): int
  {
    if c == "1920x1080" then 1920 else if c == "1440x1080" then 1440 else if c == "1280x720" then 1280 else 720
  }

  function CanvasHeight(c: string): int
  {
    if c == "1920x1080" || c == "1440x1080" then 1080 else if c == "1280x720" then 720 else 480
  }

  lemma RustCanvasParses(c: string)
    requires IsCanvas(c)
    ensures ParseCanvasSize(c) == Ok((CanvasWidth(c), CanvasHeight(c)))
  {
    if c == "1920x1080" {
      Canvas1920x1080();
    } else if c == "1440x1080" {
      Canvas1440x1080();
    } else if c == "1280x720" {
      Canvas1280x720();
    } else {
      Canvas720x480();
    }
  }

  /** Each of the four canvases parses, in the C++ version, to its
      dimensions whatever the reference parameters held. */
  lemma CppCanvasParses(c: string)
    requires IsCanvas(c)
    ensures forall width: int, height: int :: CppParseCanvas(c, width, height) == (true, CanvasWidth(c), CanvasHeight(c))
  {
    if c == "1920x1080" {
      CppCanvas1920x1080();
    } else if c == "1440x1080" {
      CppCanvas1440x1080();
    } else if c == "1280x720" {
      CppCanvas1280x720();
    } else {
      CppCanvas720x480();
    }
  }


  lemma Canvas1920x1080()
    ensures ParseCanvasSize("1920x1080") == Ok((1920, 1080))
  {
    Digits1920();
    Digits1080();
    RustWrittenCanvas("1920x1080", "1920", "1080");
  }

  lemma CppCanvas1920x1080()
    ensures forall width: int, height: int :: CppParseCanvas("1920x1080", width, height) == (true, 1920, 1080)
  {
    Digits1920();
    Digits1080();
    CppWrittenCanvas("1920x1080", "1920", "1080");
  }

  lemma Canvas1440x1080()
    ensures ParseCanvasSize("1440x1080") == Ok((1440, 1080))
  {
    Digits1440();
    Digits1080();
    RustWrittenCanvas("1440x1080", "1440", "1080");
  }

  lemma CppCanvas1440x1080()
    ensures forall width: int, height: int :: CppParseCanvas("1440x1080", width, height) == (true, 1440, 1080)
  {
    Digits1440();
    Digits1080();
    CppWrittenCanvas("1440x1080", "1440", "1080");
  }

  lemma Canvas1280x720()
    ensures ParseCanvasSize("1280x720") == Ok((1280, 720))
  {
    Digits1280();
    Digits720();
    RustWrittenCanvas("1280x720", "1280", "720");
  }

  lemma CppCanvas1280x720()
    ensures forall width: int, height: int :: CppParseCanvas("1280x720", width, height) == (true, 1280, 720)
  {
    Digits1280();
    Digits720();
    CppWrittenCanvas("1280x720", "1280", "720");
  }

  lemma Canvas720x480()
    ensures ParseCanvasSize("720x480") == Ok((720, 480))
  {
    Digits720();
    Digits480();
    RustWrittenCanvas("720x480", "720", "480");
  }

  lemma CppCanvas720x480()
    ensures forall width: int, height: int :: CppParseCanvas("720x480", width, height) == (true, 720, 480)
  {
    Digits720();
    Digits480();
    CppWrittenCanvas("720x480", "720", "480");
  }

  lemma Digits1920()
    ensures AllDigits("1920") && DigitsValue("1920") == 1920
  {
    Digits4("1920", '1', '9', '2', '0');
  }

  lemma Digits1080()
    ensures AllDigits("1080") && DigitsValue("1080") == 1080
  {
    Digits4("1080", '1', '0', '8', '0');
  }

  lemma Digits1440()
    ensures AllDigits("1440") && DigitsValue("1440") == 1440
  {
    Digits4("1440", '1', '4', '4', '0');
  }

  lemma Digits1280()
    ensures AllDigits("1280") && DigitsValue("1280") == 1280
  {
    Digits4("1280", '1', '2', '8', '0');
  }

  lemma Digits720()
    ensures AllDigits("720") && DigitsValue("720") == 720
  {
    Digits3("720", '7', '2', '0');
  }

  lemma Digits480()
    ensures AllDigits("480") && DigitsValue("480") == 480
  {
    Digits3("480", '4', '8', '0');
  }

  lemma Digits4(s: string, a: char, b: char, c: char, d: char)
    requires s == [a, b, c, d] && IsDigit(a) && IsDigit(b) && IsDigit(c) && IsDigit(d)
    ensures AllDigits(s) && DigitsValue(s) == DigitValue(a) * 1000 + DigitValue(b) * 100 + DigitValue(c) * 10 + DigitValue(d)
  {
    Digits3([a, b, c], a, b, c);
    assert s == [a, b, c] + [d];
    DigitsSnoc([a, b, c], d);
  }

  lemma Digits3(s: string, a: char, b: char, c: char)
    requires s == [a, b, c] && IsDigit(a) && IsDigit(b) && IsDigit(c)
    ensures AllDigits(s) && DigitsValue(s) == DigitValue(a) * 100 + DigitValue(b) * 10 + DigitValue(c)
  {
    assert [a] == [] + [a] && [a, b] == [a] + [b] && s == [a, b] + [c];
    DigitsSnoc([], a);
    DigitsSnoc([a], b);
    DigitsSnoc([a, b], c);
  }

  /** One more digit at the end. */
  lemma DigitsSnoc(s: string, c: char)
    requires AllDigits(s) && IsDigit(c)
    ensures AllDigits(s + [c]) && DigitsValue(s + [c]) == DigitsValue(s) * 10 + DigitValue(c)
  {
    assert (s + [c])[..|s|] == s;
  }

  /** Digits, 'x', digits: both parsers read the two numbers. */
  lemma WrittenCanvas(s: string, a: string, b: string)
    requires s == a + "x" + b && |a| > 0 && |b| > 0 && AllDigits(a) && AllDigits(b)
    requires DigitsValue(a) <= I32Max && DigitsValue(b) <= I32Max
    ensures ParseCanvasSize(s) == Ok((DigitsValue(a), DigitsValue(b)))
    ensures forall width: int, height: int :: CppParseCanvas(s, width, height) == (true, DigitsValue(a), DigitsValue(b))
  {
    RustWrittenCanvas(s, a, b);
    CppWrittenCanvas(s, a, b);
  }

  lemma RustWrittenCanvas(s: string, a: string, b: string)
    requires s == a + "x" + b && |a| > 0 && |b| > 0 && AllDigits(a) && AllDigits(b)
    requires DigitsValue(a) <= I32Max && DigitsValue(b) <= I32Max
    ensures ParseCanvasSize(s) == Ok((DigitsValue(a), DigitsValue(b)))
  {
    NoXInDigits(a);
    NoXInDigits(b);
    assert s == a + ['x'] + b;
    SplitJoin(a, 'x', b);
    assert Split(b, 'x') == [b];
    TrimNoop(a, IsRustWhitespace);
    TrimNoop(b, IsRustWhitespace);
    ParseI32Digits(a);
    ParseI32Digits(b);
  }

  lemma CppWrittenCanvas(s: string, a: string, b: string)
    requires s == a + "x" + b && |a| > 0 && |b| > 0 && AllDigits(a) && AllDigits(b)
    requires DigitsValue(a) <= I32Max && DigitsValue(b) <= I32Max
    ensures forall width: int, height: int :: CppParseCanvas(s, width, height) == (true, DigitsValue(a), DigitsValue(b))
  {
    NoXInDigits(a);
    assert s[|a|] == 'x' && s[..|a|] == a && s[|a| + 1..] == b;
    IndexOfAt(s, 'x', |a|);
    StoiDigits(a);
    StoiDigits(b);
  }

  lemma NoXInDigits(d: string)
    requires AllDigits(d)
    ensures 'x' !in d
  {
    assert forall k :: 0 <= k < |d| ==> d[k] != 'x';
  }

  /** Any two i32 values written as `WxH` parse back. */
  lemma CanvasRoundTrip(w: int, h: int)
    requires I32Min <= w <= I32Max && I32Min <= h <= I32Max
    ensures ParseCanvasSize(CanvasString(w, h)) == Ok((w, h))
  {
    var a, b := IntToString(w), IntToString(h);
    IntStringShape(w);
    IntStringShape(h);
    SplitJoin(a, 'x', b);
    assert a + "x" + b == a + ['x'] + b;
    assert Split(b, 'x') == [b];
    TrimNoop(a, IsRustWhitespace);
    TrimNoop(b, IsRustWhitespace);
    ParseI32RoundTrip(w);
    ParseI32RoundTrip(h);
  }

  /** A written integer holds no 'x' and no whitespace at either end. */
  lemma IntStringShape(v: int)
    ensures var s := IntToString(v);
      'x' !in s && !IsRustWhitespace(s[0]) && !IsRustWhitespace(s[|s| - 1])
  {
    var s := IntToString(v);
    if v < 0 {
      var d := NatToString(-v);
      NoXInDigits(d);
      assert s == "-" + d;
      assert forall k :: 1 <= k < |s| ==> s[k] == d[k - 1];
      assert s[|s| - 1] == d[|d| - 1];
    } else {
      NoXInDigits(s);
    }
  }

  /** A text with other than exactly one 'x' is never a canvas size. */
  lemma ParseCanvasNeedsOneX(s: string)
    requires CountChar(s, 'x') != 1
    ensures ParseCanvasSize(s).Err?
  {
    SplitCount(s, 'x');
  }

  /** std::stoi of plain digits within int. */
  lemma StoiDigits(d: string)
    requires |d| > 0 && AllDigits(d) && DigitsValue(d) <= I32Max
    ensures Stoi(d) == Some(DigitsValue(d))
  {
    assert !IsCSpace(d[0]);
    assert LeadingCount(d, IsCSpace) == 0;
    assert d[0..] == d;
    assert SignAndDigits(d) == (false, d);
    DigitRunIsAll(d);
    assert d[..|d|] == d;
  }

  lemma {:induction false} DigitRunIsAll(d: string)
    requires AllDigits(d)
    ensures DigitPrefixLen(d) == |d|
  {
    if |d| > 0 {
      assert AllDigits(d[1..]) by { assert forall k :: 0 <= k < |d| - 1 ==> d[1..][k] == d[k + 1]; }
      DigitRunIsAll(d[1..]);
    }
  }

  /** determine_canvas_size of src/main.cpp: a --resolution value is
      returned when it is one of the four canvases and "" otherwise; without
      one, full HD and 1440x1080 give full HD, 1280x720 and 720x480 keep
      their size, and anything else (0x0 included) gives "". */
  function CppDetermineCanvasSize(resolution: Option<string>, videoWidth: int, videoHeight: int): (r: string)
    ensures r == "" || IsCanvas(r)
  {
    match resolution
    case Some(res) => if IsCanvas(res) then res else ""
    case None =>
      if videoWidth == 1920 && videoHeight == 1080 then "1920x1080"
      else if videoWidth == 1440 && videoHeight == 1080 then "1920x1080"
      else if videoWidth == 1280 && videoHeight == 720 then "1280x720"
      else if videoWidth == 720 && videoHeight == 480 then "720x480"
      else ""
  }

  /** Without --resolution the C++ version accepts the four sizes and draws
      them as the Rust version does without --anamorphic; it refuses 0x0,
      which the Rust version draws on full HD. */
  lemma CanvasVersionsCompared(w: int, h: int)
    ensures CppDetermineCanvasSize(None, w, h) != "" <==> RustSupported(w, h) && (w, h) != (0, 0)
    ensures CppDetermineCanvasSize(None, w, h) != "" ==> Ok(CppDetermineCanvasSize(None, w, h)) == DetermineCanvasSize(w, h, false)
    ensures CppDetermineCanvasSize(None, 0, 0) == "" && DetermineCanvasSize(0, 0, false) == Ok(DefaultCanvas)
  {
  }

  /** parse_canvas_size of src/main.cpp as a function of the text and of
      what the two reference parameters held: (success, width, height).
      Without an 'x' nothing is written; std::stoi reads a leading integer
      and ignores what follows it; the width is written before the height
      is read, so it stays written when the height cannot be read. */
  function CppParseCanvas(s: string, width: int, height: int): (bool, int, int)
  {
    match IndexOf(s, 'x')
    case None => (false, width, height)
    case Some(x) =>
      match Stoi(s[..x])
      case None => (false, width, height)
      case Some(w) =>
        match Stoi(s[x + 1..])
        case None => (false, w, height)
        case Some(h) => (true, w, h)
  }

  /** The C++ function, with its reference parameters passed in and out. */
  method CppParseCanvasSize(canvasSize: string, width: int, height: int) returns (ok: bool, width': int, height': int)
    ensures (ok, width', height') == CppParseCanvas(canvasSize, width, height)
    ensures ok <==> exists x :: 0 <= x < |canvasSize| && IndexOf(canvasSize, 'x') == Some(x)
                     && Stoi(canvasSize[..x]).Some? && Stoi(canvasSize[x + 1..]).Some?
    ensures !ok ==> height' == height
  {
    ok, width', height' := false, width, height;
    var xPos := IndexOf(canvasSize, 'x');
    if xPos.None? {
      return;
    }
    var x := xPos.value;
    var w := Stoi(canvasSize[..x]);
    if w.None? {
      return;
    }
    width' := w.value;
    var h := Stoi(canvasSize[x + 1..]);
    if h.None? {
      return;
    }
    height' := h.value;
    ok := true;
  }

  /** Every canvas the C++ version picks parses back to its dimensions. */
  lemma CppCanvasRoundTrip(resolution: Option<string>, w: int, h: int, width: int, height: int)
    ensures var c := CppDetermineCanvasSize(resolution, w, h);
      c != "" ==> CppParseCanvas(c, width, height) == (true, CanvasWidth(c), CanvasHeight(c))
  {
    var c := CppDetermineCanvasSize(resolution, w, h);
    if c != "" {
      CppCanvasParses(c);
    }
  }

  /** Where the C++ parser is more lenient than the Rust one: text after
      the height is ignored, and a width is written even when the height is
      missing. */
  lemma CanvasParsersCompared()
    ensures ParseCanvasSize("1920x1080p").Err?
    ensures CppParseCanvas("1920x1080p", 0, 0) == (true, 1920, 1080)
    ensures ParseCanvasSize("1920x").Err?
    ensures CppParseCanvas("1920x", 0, 0) == (false, 1920, 0)
  {
    TrailingText();
    MissingHeight();
  }

  lemma TrailingText()
    ensures ParseCanvasSize("1920x1080p").Err?
    ensures CppParseCanvas("1920x1080p", 0, 0) == (true, 1920, 1080)
  {
    RustTrailingText();
    CppTrailingText();
  }

  lemma RustTrailingText()
    ensures ParseCanvasSize("1920x1080p").Err?
  {
    Digits1920();
    assert !AllDigits("1080p") by { assert !IsDigit("1080p"[4]); }
    RustRejectsHeight("1920x1080p", "1920", "1080p");
  }

  lemma CppTrailingText()
    ensures CppParseCanvas("1920x1080p", 0, 0) == (true, 1920, 1080)
  {
    Digits1920();
    Digits1080();
    CppReadsLeadingHeight("1920x1080p", "1920", "1080", "p");
  }

  /** A height that is not all digits makes the Rust parser fail. */
  lemma RustRejectsHeight(s: string, a: string, b: string)
    requires s == a + "x" + b && |a| > 0 && AllDigits(a) && DigitsValue(a) <= I32Max
    requires 'x' !in b && |b| > 0 && IsDigit(b[0]) && !AllDigits(b) && !IsRustWhitespace(b[|b| - 1])
    ensures ParseCanvasSize(s).Err?
  {
    NoXInDigits(a);
    assert s == a + ['x'] + b;
    SplitJoin(a, 'x', b);
    assert Split(b, 'x') == [b];
    TrimNoop(a, IsRustWhitespace);
    ParseI32Digits(a);
    TrimNoop(b, IsRustWhitespace);
    assert SignAndDigits(b) == (false, b);
  }

  /** The C++ parser reads the digits of the height and ignores the text
      after them. */
  lemma CppReadsLeadingHeight(s: string, a: string, d: string, t: string)
    requires s == a + "x" + (d + t) && |a| > 0 && AllDigits(a) && DigitsValue(a) <= I32Max
    requires |d| > 0 && AllDigits(d) && DigitsValue(d) <= I32Max && |t| > 0 && !IsDigit(t[0])
    ensures CppParseCanvas(s, 0, 0) == (true, DigitsValue(a), DigitsValue(d))
  {
    NoXInDigits(a);
    assert s[|a|] == 'x' && s[..|a|] == a && s[|a| + 1..] == d + t;
    IndexOfAt(s, 'x', |a|);
    StoiDigits(a);
    LeadingDigits(d, t);
  }

  /** std::stoi reads the digits before a non-digit. */
  lemma LeadingDigits(d: string, t: string)
    requires |d| > 0 && AllDigits(d) && DigitsValue(d) <= I32Max
    requires |t| > 0 && !IsDigit(t[0])
    ensures Stoi(d + t) == Some(DigitsValue(d))
  {
    var s := d + t;
    assert !IsCSpace(s[0]);
    assert LeadingCount(s, IsCSpace) == 0;
    assert s[0..] == s;
    assert SignAndDigits(s) == (false, s);
    assert s[..|d|] == d;
    assert s[|d|] == t[0];
    var n := DigitPrefixLen(s);
    assert n >= |d| by {
      assert forall k :: 0 <= k < |d| ==> IsDigit(s[k]);
    }
    assert n <= |d| by {
      assert !IsDigit(s[|d|]);
      assert forall k :: |d| < k <= |s| ==> s[..k][|d|] == s[|d|];
    }
  }

  lemma MissingHeight()
    ensures ParseCanvasSize("1920x").Err?
    ensures CppParseCanvas("1920x", 0, 0) == (false, 1920, 0)
  {
    var s := "1920x";
    Digits1920();
    NoXInDigits("1920");
    assert s == "1920" + ['x'] + "";
    SplitJoin("1920", 'x', "");
    assert Split(s, 'x') == ["1920", ""];
    TrimNoop("1920", IsRustWhitespace);
    ParseI32Digits("1920");
    assert s[..4] == "1920" && s[5..] == "";
    IndexOfAt(s, 'x', 4);
    StoiDigits("1920");
  }

  // ---------------------------------------------------------------------------
  // libaribcaption defaults

  /** The font default_arib_font picks for the target system. */
  function DefaultAribFont(windows: bool): string
  {
    if windows then "Rounded M+ 1m for ARIB" else "Hiragino Maru Gothic ProN, Rounded M+ 1m for ARIB"
  }

  /** The ten defaults of src/config.rs. */
  function RustDefaults(windows: bool): map<string, string>
  {
    map["caption_encoding" := "0", "font" := DefaultAribFont(windows), "force_outline_text" := "0",
        "ignore_background" := "0", "ignore_ruby" := "0", "outline_width" := "0.0", "replace_drcs" := "0",
        "replace_msz_ascii" := "0", "replace_msz_japanese" := "0", "replace_msz_glyph" := "0"]
  }

  /** The four defaults of src/main.cpp. */
  function CppDefaults(): map<string, string>
  {
    map["outline_width" := "0.0", "replace_msz_ascii" := "0", "replace_msz_japanese" := "0", "replace_drcs" := "0"]
  }

  /** The options with every missing default filled in. */
  function WithDefaults(opts: map<string, string>, defaults: map<string, string>): map<string, string>
  {
    defaults + opts
  }

  /** A value already set is kept, a missing default is added, and no other
      key appears. */
  lemma WithDefaultsSpec(opts: map<string, string>, defaults: map<string, string>, key: string)
    ensures var m := WithDefaults(opts, defaults);
      (key in m <==> key in opts || key in defaults)
      && (key in opts ==> m[key] == opts[key])
      && (key !in opts && key in defaults ==> m[key] == defaults[key])
  {
  }

  /** With no defaults there is nothing to fill in. */
  lemma NoDefaults(opts: map<string, string>)
    ensures opts == WithDefaults(opts, map[])
  {
  }

  /** Filling in defaults a second time changes nothing. */
  lemma WithDefaultsIdempotent(opts: map<string, string>, defaults: map<string, string>)
    ensures WithDefaults(WithDefaults(opts, defaults), defaults) == WithDefaults(opts, defaults)
  {
  }

  /** Each key set by setup_libaribcaption_defaults is not among those
      set before it. */
  lemma FreshDefaults(font: string)
    ensures "font" !in map["caption_encoding" := "0"]
    ensures "force_outline_text" !in map["caption_encoding" := "0", "font" := font]
    ensures "ignore_background" !in map["caption_encoding" := "0", "font" := font, "force_outline_text" := "0"]
    ensures "ignore_ruby" !in map["caption_encoding" := "0", "font" := font, "force_outline_text" := "0", "ignore_background" := "0"]
    ensures "outline_width" !in map["caption_encoding" := "0", "font" := font, "force_outline_text" := "0", "ignore_background" := "0", "ignore_ruby" := "0"]
    ensures "replace_drcs" !in map["caption_encoding" := "0", "font" := font, "force_outline_text" := "0", "ignore_background" := "0", "ignore_ruby" := "0", "outline_width" := "0.0"]
    ensures "replace_msz_ascii" !in map["caption_encoding" := "0", "font" := font, "force_outline_text" := "0", "ignore_background" := "0", "ignore_ruby" := "0", "outline_width" := "0.0", "replace_drcs" := "0"]
    ensures "replace_msz_japanese" !in map["caption_encoding" := "0", "font" := font, "force_outline_text" := "0", "ignore_background" := "0", "ignore_ruby" := "0", "outline_width" := "0.0", "replace_drcs" := "0", "replace_msz_ascii" := "0"]
    ensures "replace_msz_glyph" !in map["caption_encoding" := "0", "font" := font, "force_outline_text" := "0", "ignore_background" := "0", "ignore_ruby" := "0", "outline_width" := "0.0", "replace_drcs" := "0", "replace_msz_ascii" := "0", "replace_msz_japanese" := "0"]
  {
  }

  /** setup_libaribcaption_defaults of src/config.rs: each
      `entry(key).or_insert_with(default)` sets the key only when absent.
      `filled` holds the defaults applied so far. */
  method SetupRustDefaults(opts: map<string, string>, windows: bool) returns (opts': map<string, string>)
    ensures opts' == WithDefaults(opts, RustDefaults(windows))
  {
    var font := DefaultAribFont(windows);
    ghost var filled: map<string, string> := map[];
    opts' := opts;
    FreshDefaults(font);
    NoDefaults(opts);
    opts' := OrInsert(opts', "caption_encoding", "0", opts, filled);
    filled := filled["caption_encoding" := "0"];
    opts' := OrInsert(opts', "font", font, opts, filled);
    filled := filled["font" := font];
    opts' := OrInsert(opts', "force_outline_text", "0", opts, filled);
    filled := filled["force_outline_text" := "0"];
    opts' := OrInsert(opts', "ignore_background", "0", opts, filled);
    filled := filled["ignore_background" := "0"];
    opts' := OrInsert(opts', "ignore_ruby", "0", opts, filled);
    filled := filled["ignore_ruby" := "0"];
    opts' := OrInsert(opts', "outline_width", "0.0", opts, filled);
    filled := filled["outline_width" := "0.0"];
    opts' := OrInsert(opts', "replace_drcs", "0", opts, filled);
    filled := filled["replace_drcs" := "0"];
    opts' := OrInsert(opts', "replace_msz_ascii", "0", opts, filled);
    filled := filled["replace_msz_ascii" := "0"];
    opts' := OrInsert(opts', "replace_msz_japanese", "0", opts, filled);
    filled := filled["replace_msz_japanese" := "0"];
    opts' := OrInsert(opts', "replace_msz_glyph", "0", opts, filled);
    filled := filled["replace_msz_glyph" := "0"];
  }

  /** The same for the four keys of src/main.cpp. */
  lemma FreshCppDefaults()
    ensures "replace_msz_ascii" !in map["outline_width" := "0.0"]
    ensures "replace_msz_japanese" !in map["outline_width" := "0.0", "replace_msz_ascii" := "0"]
    ensures "replace_drcs" !in map["outline_width" := "0.0", "replace_msz_ascii" := "0", "replace_msz_japanese" := "0"]
  {
  }

  /** setup_libaribcaption_defaults of src/main.cpp: `if (find == end)
      opts[key] = value` for four keys. */
  method SetupCppDefaults(opts: map<string, string>) returns (opts': map<string, string>)
    ensures opts' == WithDefaults(opts, CppDefaults())
  {
    ghost var filled: map<string, string> := map[];
    opts' := opts;
    FreshCppDefaults();
    NoDefaults(opts);
    opts' := OrInsert(opts', "outline_width", "0.0", opts, filled);
    filled := filled["outline_width" := "0.0"];
    opts' := OrInsert(opts', "replace_msz_ascii", "0", opts, filled);
    filled := filled["replace_msz_ascii" := "0"];
    opts' := OrInsert(opts', "replace_msz_japanese", "0", opts, filled);
    filled := filled["replace_msz_japanese" := "0"];
    opts' := OrInsert(opts', "replace_drcs", "0", opts, filled);
    filled := filled["replace_drcs" := "0"];
  }

  /** One `entry(key).or_insert(value)`: the key is set only when absent.
      With `filled` the defaults already applied to `base`, this applies
      one default more. */
  method OrInsert(opts: map<string, string>, key: string, value: string,
                  ghost base: map<string, string>, ghost filled: map<string, string>)
    returns (opts': map<string, string>)
    requires opts == WithDefaults(base, filled) && key !in filled
    ensures opts' == WithDefaults(base, filled[key := value])
  {
    opts' := opts;
    if key !in opts {
      opts' := opts[key := value];
    }
  }



  /** The C++ defaults are four of the ten Rust ones, with the same values;
      the Rust version alone adds the font and the other six keys. */
  lemma DefaultsCompared(windows: bool)
    ensures CppDefaults().Keys < RustDefaults(windows).Keys
    ensures forall k :: k in CppDefaults() ==> CppDefaults()[k] == RustDefaults(windows)[k]
    ensures "font" in WithDefaults(map[], RustDefaults(windows)) && "font" !in WithDefaults(map[], CppDefaults())
  {
    CppDefaultsShared(windows);
    assert "font" in RustDefaults(windows).Keys;
  }

  lemma CppDefaultsShared(windows: bool)
    ensures CppDefaults().Keys <= RustDefaults(windows).Keys
    ensures forall k :: k in CppDefaults() ==> CppDefaults()[k] == RustDefaults(windows)[k]
  {
    var rust, cpp := RustDefaults(windows), CppDefaults();
    assert cpp.Keys == {"outline_width", "replace_msz_ascii", "replace_msz_japanese", "replace_drcs"};
    assert rust["outline_width"] == "0.0" && rust["replace_msz_ascii"] == "0";
    assert rust["replace_msz_japanese"] == "0" && rust["replace_drcs"] == "0";
  }

}
