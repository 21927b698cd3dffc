# arib2bdnxml core, modelled in Dafny

arib2bdnxml turns ARIB bitmap captions from a broadcast recording into a
Blu-ray BDN 0.93 subtitle set: one PNG file per caption plus one XML index.
This project models its core:

- **the compositor** (`compositor.dfy`, module `Compositor`). It turns one
  decoded subtitle into a single straight RGBA raster:
  - a bounding box over the bitmap rectangles;
  - a transparent canvas of that size;
  - every palette-indexed pixel painted with the opaque/transparent/blend
    rule.

  It also picks timestamps: the pts choice, `pts_to_seconds`, and the
  display start/end taken from the decoder's millisecond offsets.
  Reading frames from a packet stream is modelled too.
- **PNG preparation** (`bitmap.dfy`, module `Bitmap`):
  - the row gathering that drops the stride padding;
  - the premultiplied-to-straight alpha conversion;
  - the validity gate;
  - the zero-padded PNG file names;
  - the C++ frame copy.
- **the timeline builder** (`timeline.dfy`, module `Timeline`). It is the
  main loop over subtitle frames with one frame of lookahead:
  - clear commands close the last event;
  - empty bitmaps are skipped;
  - each bitmap's start and end are resolved from its own display times,
    the next frame, or a one-second default;
  - the `--ss`/`--to` trim window drops or clips the interval, then
    re-bases it;
  - each accepted interval becomes a numbered event.
- **BDN output** (`bdn.dfy`, module `Bdn`):
  - frame-exact `HH:MM:SS:FF` timecodes;
  - the FrameRate attribute;
  - XML escaping;
  - the VideoFormat lookup;
  - the line layout of the written document;
  - the generator object whose `add_event` appends events.
- **option and configuration parsing** (`options.dfy`, module `Options`;
  `options_parser.dfy`, module `OptionsParser`; `config.dfy`, module
  `Config`):
  - the `--ss`/`--to` time strings;
  - the `key=value,key=value` libaribcaption option string with quoting
    and excluded keys;
  - the canvas-size choice and parsing;
  - the default libaribcaption options.

`text.dfy` (module `Text`) holds the string and number helpers the others
share. They model the library routines the source calls: decimal
rendering, `str::parse::<i32>`, `std::stoi`, decimal `f64` parsing,
`split`, `find`, `trim` and `contains`. `wrappers.dfy` holds `Option` and
`Result`.

The Rust sources are the primary model. Where the C++ sources behave
differently, the C++ behaviour is its own member, and a lemma states the
difference or the agreement. The C++ differences are:

- the BDN header and FrameRate spelling;
- unpremultiplied PNG pixels;
- the unchecked palette lookup;
- the canvas choice;
- the trailing-text tolerance of `std::stoi`;
- four defaults instead of ten;
- values that keep trailing newlines;
- the loop that never applies a final clear command.

The loops of the source are methods proved against the functions that
specify them:

- time_to_tc;
- xml_escape;
- the straight-alpha pass;
- row gathering;
- the bounding box;
- the compositing loops;
- the option scanner;
- the defaults setup;
- both timeline loops.

The `add_event` generator is a class.

The trim window follows `src/main.cpp:102-132`: an event that starts
before `--ss` is dropped, not clipped. With `--ss 2 --to 5`, an event over
`[1s, 3s)` is dropped because it starts before `--ss`.

## Model

| member | source | states |
|---|---|---|
| Bdn.Round | src/bdn.rs:26-27 | `round()` of a non-negative value is the integer within one half of it, halves going up, and is never negative |
| Bdn.FpsInt | src/bdn.rs:27 | for every frame rate of at least one half the integer rate is at least 1, so the divisions of time_to_tc are defined |
| Bdn.DecomposeCorrect | src/bdn.rs:28-45 | the split of a frame count leaves frames below the integer rate and seconds and minutes below 60, and the fields recombine to the same frame count |
| Bdn.DecomposeUnique | src/bdn.rs:28-45 | any in-range hours/minutes/seconds/frames with the same frame total is exactly that split: a timecode names one frame count and each frame count has one timecode |
| Bdn.HourFirstSplit | src/bdn.rs:28-36 | the source's hour-first cascade of divisions and remainders yields the same four fields as an independent seconds-first split, so the carry branches never fire |
| Bdn.TimeToTc | src/bdn.rs:24-48 | the clamp/round/divide/carry method yields the timecode of the reference split of the rounded frame count |
| Bdn.FormatTcRoundTrip | src/bdn.rs:55-60 | reading a formatted timecode back at its colons recovers all four fields: the `{:02}` padding loses nothing |
| Bdn.TcEncodesFrames | src/bdn.rs:24-48 | the timecode of any time reads back as in-range fields whose frame total is the rounded `seconds * fps` |
| Bdn.NegativeTimeIsZero | src/bdn.rs:25 | every negative time gives `00:00:00:00` |
| Bdn.TimeToTcExamples | src/bdn.rs:170-173 | 0 s at 29.97 fps gives `00:00:00:00`, 1 s at 30 fps gives `00:00:01:00` |
| Bdn.AdjustTimestamp | src/bdn.rs:50-53 | the adjusted time plus the start time gives back the timestamp: the start time becomes time zero |
| Bdn.FormatFps | src/bdn.rs:62-70 | the FrameRate text differs from the three-decimal rendering exactly for `29.970` and `24.000`, which become `29.97` and `24`; a changed text is the rendering with only trailing zeros and the point dropped, and never ends in `0` or `.` |
| Bdn.FormatFpsKeepsValue | src/bdn.rs:62-70 | the shortened FrameRate text denotes the same number as the three-decimal rendering |
| Bdn.NtscRateValue | src/bdn.rs:66 | `29.97` and `29.970` both read as 29.97 |
| Bdn.FilmRateValue | src/bdn.rs:67 | `24` and `24.000` both read as 24 |
| Bdn.DetermineVideoFormat | src/bdn_xml_generator.cpp:98-112 | the result is one of five format names; for heights 1080, 720 and 480 it is the height plus a scan letter; any other height gives `1080p`; it ends in `i` exactly when interlaced at 1080 or 480 |
| Bdn.XmlEscape | src/bdn.rs:72-85 | the loop's output is the character-by-character escape of the input |
| Bdn.EscapedHasNoMarkup | src/bdn.rs:72-85 | escaped text contains none of `<`, `>`, `"` or `'` |
| Bdn.EscapedIdentity | src/bdn.rs:72-85 | escaping leaves a text unchanged exactly when it contains none of the five special characters |
| Bdn.UnescapeEscaped | src/bdn.rs:72-85 | decoding the five entities recovers the original text, so escaping loses nothing |
| Bdn.EscapedConcat | src/bdn.rs:74-83 | escaping a concatenation is the concatenation of the escapes |
| Bdn.EscapeNotIdempotent | src/bdn.rs:76 | escaping an already escaped `&` escapes it again |
| Bdn.XmlEscapeExample | src/bdn.rs:177 | `a<b` escapes to `a&lt;b` |
| Bdn.XmlEscapeAmpExample | src/bdn.rs:178 | `a&amp;b` escapes to `a&amp;amp;b` |
| Bdn.SummaryOf | src/bdn.rs:124-135 | NumberofEvents is the number of events; FirstEventInTC is the first event's InTC and LastEventOutTC the last event's OutTC, both `00:00:00:00` when there are no events |
| Bdn.SummaryAfterAdd | src/bdn.rs:124-128 | after one more event the count grows by one and LastEventOutTC is the new event's out time; FirstEventInTC stays, or is the new event's in time when there were none |
| Bdn.AllEventLinesLayout | src/bdn.rs:139-156 | the Events section has three lines per event, event k's at positions 3k to 3k+2 |
| Bdn.RustHead | src/bdn.rs:110-137 | the Rust header is nine lines with the Format line at index 5 and the Events summary at index 6 |
| Bdn.RustLayout | src/bdn.rs:106-162 | the Rust document has 11 + 3n lines: Format at 5, summary of the events at 6, event k's lines from 9 + 3k, then `</Events>` and `</BDN>` |
| Bdn.CppHead | src/bdn_xml_generator.cpp:22-37 | the C++ header is eight lines with the Format line at index 5 and no summary line |
| Bdn.DocumentAppend | src/bdn.rs:106-162 | the file written for two runs of lines is the text of the first run followed by that of the second |
| Bdn.DocumentNewlines | src/bdn.rs:106-162 | lines holding no newline are written as exactly that many newline-terminated lines, so the file ends in a newline |
| Bdn.WrittenDocuments | src/bdn_xml_generator.cpp:15-55 | both written files are their own description text followed by the same Events text and closing tags |
| Bdn.CppLayout | src/bdn_xml_generator.cpp:15-55 | the C++ document has 10 + 3n lines with event k's lines from 8 + 3k, and from there on is line for line the Rust document's tail |
| Bdn.FrameRateDiffers | src/bdn_xml_generator.cpp:31-33 | at 29.970 fps the C++ Format line differs from the Rust one |
| Bdn.BdnXmlGenerator.constructor | src/bdn.rs:95-100 | a new generator holds its info and no events |
| Bdn.BdnXmlGenerator.AddEvent | src/bdn.rs:102-104 | the event is appended; the Events section grows by exactly its three lines; LastEventOutTC becomes its out time |
| Bitmap.NoU16Overflow | src/bitmap.rs:50-53 | `c * 255 + a / 2` fits in a u16 for all bytes, so the u16 arithmetic never wraps |
| Bitmap.UnpremultiplyRounds | src/bitmap.rs:50-53 | for a channel not above its alpha the result is `c * 255 / a` rounded to nearest; above its alpha it is clamped to 255 |
| Bitmap.OpaqueUnchanged | src/bitmap.rs:49-54 | under alpha 255 a channel is unchanged |
| Bitmap.HalfRedExample | src/bitmap.rs:51 | channel 128 under alpha 128 becomes 255, channel 0 stays 0 |
| Bitmap.StraightAlpha | src/bitmap.rs:43-55 | the conversion keeps the buffer length |
| Bitmap.ToStraightAlpha | src/bitmap.rs:43-55 | the in-place pass leaves the array equal to the conversion of its old contents |
| Bitmap.StraightAlphaPixel | src/bitmap.rs:43-55 | every pixel keeps its alpha; alpha 0 zeroes its colour; otherwise each colour channel is un-premultiplied by the alpha |
| Bitmap.OpaqueImageUnchanged | src/bitmap.rs:43-55 | an image whose every alpha is 255 is unchanged |
| Bitmap.RowAt | src/bitmap.rs:39 | row y is the `width * 4` bytes starting at `y * stride` |
| Bitmap.RowsLength | src/bitmap.rs:37-40 | gathering count rows gives exactly `count * width * 4` bytes: the stride padding is dropped |
| Bitmap.GatherRows | src/bitmap.rs:37-40 | the loop's buffer is all rows one after another |
| Bitmap.RowsPrefix | src/bitmap.rs:38-40 | gathering fewer rows gives a prefix of gathering more |
| Bitmap.RowsIndex | src/bitmap.rs:38-40 | byte k of row y sits at the bytes of the rows before y plus k in the gathered buffer |
| Bitmap.SavePixels | src/bitmap.rs:16-58 | pixels are written exactly when the data is non-empty and width and height are positive, and then there are `width * 4 * height` bytes |
| Bitmap.PngPixelsAgreeWhenOpaque | src/bitmap_processor.cpp:62-112 | both versions accept the same bitmaps; accepted outputs agree exactly when the straight-alpha conversion changes nothing, in particular for fully opaque images |
| Bitmap.PngPixelsDifferExample | src/bitmap_processor.cpp:105-112 | a half-transparent red pixel is written as (255, 0, 0, 128) by the Rust version and (128, 0, 0, 128) by the C++ one |
| Bitmap.PngNameDigits | src/bitmap.rs:63-66 | the name is the base name, the index in decimal (exactly five digits below 100000, all digits above), then `.png` |
| Bitmap.PngNameInjective | src/bitmap.rs:63-66 | different indices give different file names |
| Bitmap.PngNamesAgree | src/bitmap_processor.cpp:120-124 | for every non-negative index the C++ name is the Rust name |
| Bitmap.CppNegativeIndexExample | src/bitmap_processor.cpp:120-124 | a negative index is zero-filled in front of its sign (`s000-5.png`) |
| Bitmap.ExtractBitmapFromFrame | src/bitmap_processor.cpp:27-60 | success exactly for a frame with data, positive size and positive stride; a missing frame, missing data or a non-positive size leaves the output as it was; once the size passes, width, height and stride are stored even if the stride is then rejected; on success the first `stride * height` bytes of the frame are copied |
| Compositor.PtsToSeconds | src/ffmpeg.rs:49-59 | a missing pts or a zero denominator gives 0; otherwise seconds times the denominator is pts times the numerator |
| Compositor.CppPtsToSeconds | src/ffmpeg_wrapper.cpp:619-624 | the C++ value is undefined exactly when a present pts meets a zero denominator |
| Compositor.PtsToSecondsAgree | src/ffmpeg_wrapper.cpp:619-624 | with a non-zero denominator both versions agree; with zero, the Rust version gives 0 and the C++ one has no defined value |
| Compositor.CodecNameHasAribIff | src/ffmpeg.rs:69-75 | true exactly when the name is present and contains `arib` (the `libaribcaption` test adds nothing) |
| Compositor.ChoosePts | src/ffmpeg.rs:422-426 | the packet pts unless it is missing, then the subtitle's pts |
| Compositor.DisplayTimesOrder | src/ffmpeg.rs:427-441 | with both display offsets valid the start and end are the base plus the offsets in seconds; otherwise both are the base; neither is before the base; ordered offsets give an ordered interval |
| Compositor.UnpackPack | src/ffmpeg.rs:520-524 | packing four channel bytes into an ARGB word and splitting it again gives the channels back |
| Compositor.PackUnpack | src/ffmpeg.rs:520-524 | splitting an ARGB word and packing it again gives the word back |
| Compositor.Lookup | src/ffmpeg.rs:516-524 | no colour exactly when the index check is on and the index is at least nb_colors; otherwise the unpacked palette entry |
| Compositor.BoundingBox | src/ffmpeg.rs:457-476 | the loop computes the box of all bitmap rectangles |
| Compositor.BoxHasIff | src/ffmpeg.rs:461-476 | `has_bitmap` holds exactly when some rectangle is a bitmap |
| Compositor.BoxContains | src/ffmpeg.rs:469-475 | every bitmap rectangle lies inside the box |
| Compositor.BoxTight | src/ffmpeg.rs:469-475 | every edge of the box is the edge of some bitmap rectangle |
| Compositor.BoxEmpty | src/ffmpeg.rs:457-461 | without a bitmap the box keeps its i32 starting extremes |
| Compositor.BoxNonEmpty | src/ffmpeg.rs:484-485 | with a bitmap the composite width and height are not negative |
| Compositor.PlotRule | src/ffmpeg.rs:526-553 | a transparent source or an outside position changes nothing; an opaque source or a transparent destination is copied; otherwise the blend result is stored |
| Compositor.PlotElsewhere | src/ffmpeg.rs:533-552 | painting one pixel leaves every other pixel as it was |
| Compositor.DrawPixel | src/ffmpeg.rs:526-553 | the in-place pixel update is the plot of the old buffer |
| Compositor.DrawRow | src/ffmpeg.rs:515-555 | the in-place row loop paints the row's pixels in order |
| Compositor.DrawRect | src/ffmpeg.rs:514-556 | the in-place rectangle loop paints its rows in order |
| Compositor.Composite | src/ffmpeg.rs:489-557 | the in-place loop over rectangles paints them in order over the old buffer |
| Compositor.PaintRowKeeps | src/ffmpeg.rs:515-555 | a canvas pixel the rectangle does not cover is unchanged by painting a row |
| Compositor.PaintRowsKeeps | src/ffmpeg.rs:514-556 | a canvas pixel the rectangle does not cover is unchanged by painting the rectangle |
| Compositor.PaintRectsKeeps | src/ffmpeg.rs:489-557 | a canvas pixel no rectangle covers keeps its value |
| Compositor.RectPixelsInCanvas | src/ffmpeg.rs:510-534 | every pixel of every bitmap rectangle lands inside the composite, so the bounds test never drops one |
| Compositor.PaintRowAgree | src/ffmpeg_wrapper.cpp:470-512 | when every index of the rectangle is in the palette, the unchecked C++ lookup paints a row as the checked Rust one does |
| Compositor.PaintRowsAgree | src/ffmpeg_wrapper.cpp:470-512 | the same for a whole rectangle |
| Compositor.PaintRectsAgree | src/ffmpeg_wrapper.cpp:442-513 | when every index is in its palette, the C++ composite equals the Rust one |
| Compositor.PaletteCheckDiffers | src/ffmpeg_wrapper.cpp:473-476 | an index beyond nb_colors is skipped by the Rust version but painted by the C++ one |
| Compositor.Transparent | src/ffmpeg.rs:487 | the fresh composite is n zero bytes |
| Compositor.FrameOfCases | src/ffmpeg.rs:443-575 | no rectangles give a frame without bitmap at (0, 0); there is no frame exactly when rectangles exist but none is a bitmap; otherwise the bitmap has stride `width * 4` and `stride * height` bytes, contains every bitmap rectangle and has its origin at a rectangle's left and top edges |
| Compositor.UncoveredTransparent | src/ffmpeg.rs:487-557 | a composite pixel that no rectangle covers is fully transparent |
| Compositor.ComposeFrame | src/ffmpeg.rs:418-575 | composing a decoded subtitle gives exactly the specified frame |
| Compositor.ReadNextFrame | src/ffmpeg.rs:389-579 | returns the frame of the first packet that yields one, after packets of other streams, decode errors, empty decodes and bitmap-less subtitles are skipped; nothing exactly when the input runs out |
| Compositor.CppBaseTimestamp | src/ffmpeg_wrapper.cpp:527-535 | with a non-zero denominator the C++ base timestamp equals the Rust one |
| Compositor.CppGetNextSubtitleFrame | src/ffmpeg_wrapper.cpp:349-617 | on failure the frame holds the reset values and the input is used up; on success the frame is what the Rust reader, without its palette check, makes of that packet; every skipped packet yields no frame |
| Compositor.GetVideoInfo | src/ffmpeg_wrapper.cpp:161-170 | a user frame rate replaces the probed one; size and start time are kept |
| Config.DetermineCanvasSize | src/config.rs:17-52 | a successful choice is always one of the four canvas sizes |
| Config.DetermineCanvasSizeSupported | src/config.rs:23-46 | the choice succeeds exactly for 0x0 and the four supported video sizes, and gives `1440x1080` exactly for a 1440x1080 anamorphic video |
| Config.DetermineCanvasSizeRoundTrip | src/config.rs:17-71 | parsing the chosen canvas gives back its width and height |
| Config.ParseCanvasSize | src/config.rs:55-71 | parsed dimensions are i32 values |
| Config.CanvasRoundTrip | src/config.rs:55-71 | `"{w}x{h}"` parses to (w, h) for every i32 pair |
| Config.ParseCanvasNeedsOneX | src/config.rs:56-69 | text without exactly one `x` is rejected |
| Config.RustRejectsHeight | src/config.rs:62-66 | a height followed by other text is rejected |
| Config.CppDetermineCanvasSize | src/main.cpp:16-54 | the C++ choice is empty (an error) or one of the four canvas sizes |
| Config.CanvasVersionsCompared | src/main.cpp:31-53 | without `--resolution`, the C++ choice succeeds exactly for the four supported non-zero sizes and then equals the non-anamorphic Rust choice; 0x0 is an error in C++ but the default in Rust |
| Config.CppParseCanvasSize | src/main.cpp:73-87 | success exactly when there is an `x` and both sides begin with a number `std::stoi` reads; on failure the height is untouched |
| Config.CppCanvasRoundTrip | src/main.cpp:16-87 | whatever canvas the C++ choice gives parses back to its width and height |
| Config.CppReadsLeadingHeight | src/main.cpp:80-81 | the C++ parser reads the leading digits of a height and ignores what follows |
| Config.CanvasParsersCompared | src/main.cpp:73-87 | `1920x1080p` is rejected by the Rust parser but read as 1920x1080 by the C++ one; `1920x` fails in both, after C++ has already stored the width |
| Config.WithDefaultsSpec | src/config.rs:83-105 | a key is present afterwards exactly when it was present or has a default; existing values win; defaults fill the rest |
| Config.WithDefaultsIdempotent | src/config.rs:83-105 | applying the defaults twice is applying them once |
| Config.SetupRustDefaults | src/config.rs:84-105 | the ten `or_insert` calls fill in the ten defaults without touching keys already set |
| Config.SetupCppDefaults | src/main.cpp:57-70 | the four `find == end` checks fill in the four defaults without touching keys already set |
| Config.DefaultsCompared | src/main.cpp:57-70 | the C++ defaults are a strict subset of the Rust ones with the same values; the font default exists only in the Rust version |
| Options.HhmmssParts | src/options.rs:37-46 | three fields that parse as i32 give `h * 3600 + m * 60 + s` |
| Options.MmssParts | src/options.rs:48-56 | two fields that parse as i32 give `m * 60 + s` |
| Options.BadFieldRejected | src/options.rs:37-46 | an HH:MM:SS string with a field that is not an i32 is rejected |
| Options.BadMmssFieldRejected | src/options.rs:48-56 | an MM:SS string with a field that is not an i32 is rejected |
| Options.BadClockFieldRejected | src/options.rs:8-29 | in both clock forms without a fraction, a field that is not an i32 makes the time string an error |
| Options.ClockParseOf | src/options.rs:37-56 | a string that splits into clock fields parses to their weighted sum |
| Options.ClockRoundTrip | src/options.rs:8-29 | digit fields joined by one or two colons parse as a time string to their weighted sum |
| Options.ClockFractionRoundTrip | src/options.rs:12-29 | a clock followed by `.` and a fraction parses to the clock value plus the fraction |
| Options.MillisecondsValue | src/options.rs:15-16 | `0.` followed by digits reads as the fraction those digits denote |
| Options.SecondsRoundTrip | src/options.rs:30-34 | a string of digits parses to its value in seconds |
| Options.SecondsFractionRoundTrip | src/options.rs:30-34 | `whole.frac` parses to the whole number plus the fraction |
| Options.NoDecimalWithColon | src/options.rs:30-34 | no text containing a colon reads as a plain number of seconds |
| Options.ManyColonsRejected | src/options.rs:8-35 | a time string with three or more colons is rejected |
| Options.BadMillisecondsRejected | src/options.rs:12-29 | a clock whose text after `.` is not all digits is rejected with `invalid milliseconds` |
| Options.SkipBlanks | src/options.rs:102-104 | the position returned lies between the start and the end and holds no blank unless it is the end |
| Options.FindFrom | src/options.rs:105 | a found position holds the character sought |
| Options.ScanEnd | src/options.rs:88-115 | the value scan stops inside the text, never before its start |
| Options.AssignSpec | src/options.rs:127-131 | the last value given for a non-excluded key wins; keys never given keep their earlier state |
| Options.ExcludedNeverAssigned | src/options.rs:58-60 | an excluded key is never given a value |
| Options.ExcludedKeysAbsent | src/options.rs:127-131 | excluded keys are never in the Rust result; in the C++ map they are present only if they were already |
| Options.CppKeepsExisting | src/options.cpp:104-110 | the C++ parser keeps every entry of the map it fills unless the text sets that key again |
| Options.NoEqualsNoOptions | src/options.rs:72-78 | text without `=` yields no options |
| Options.OptsRoundTrip | src/options.rs:63-140 | joining plain key/value pairs as `k=v,k=v` and parsing gives the pairs back, assigned in order, in both versions |
| Options.QuotedScan | src/options.rs:88-100 | a quoted value is scanned up to its closing quote |
| Options.QuotedOption | src/options.rs:88-125 | `key="text"` gives the text without its quotes |
| Options.PlainOptsExample | src/options.rs:170-174 | `outline_width=0.0,font=Hiragino` gives both options |
| Options.ExcludedOptsExample | src/options.rs:177-181 | `sub_type=bitmap,outline_width=0.0` gives only outline_width |
| Options.QuotedOptsExample | src/options.rs:184-187 | `font="Hiragino Maru Gothic ProN"` gives the font name without quotes |
| OptionsParser.SkipBlanksFrom | src/options.cpp:68-71 | the loop returns the first non-blank position after the comma, every position skipped being a blank |
| OptionsParser.NextKeyAt | src/options.rs:101-112 | decides whether a `key=` follows the comma, and a yes means an `=` lies ahead |
| OptionsParser.ScanValue | src/options.rs:85-115 | the scan loop stops at the specified end, and stops early only at a comma that starts another option |
| OptionsParser.ReadOption | src/options.rs:67-137 | one pass stores one option and shortens the remaining text, or stops when no option is left |
| OptionsParser.ParseInto | src/options.rs:67-138 | the outer loop stores the options of the text, in order, into the map |
| OptionsParser.ParseRustOpts | src/options.rs:63-140 | the Rust parser returns the specified map, which holds no excluded key |
| OptionsParser.ParseCppOpts | src/options.cpp:18-119 | the C++ parser returns the specified map and keeps every key it was given |
| OptionsParser.TrailingNewline | src/options.cpp:92-93 | `key=value` plus a newline gives `value` in the Rust version but `value` plus the newline in the C++ one, whose trim removes only spaces and tabs |
| Timeline.RangeAdjustSpec | src/main.cpp:102-132 | the trim window rejects exactly the intervals starting before `--ss` or at or after `--to`; an accepted one starts at zero or later, is clipped to `--to` and moved back by `--ss` |
| Timeline.AdjustTimestampForRange | src/main.cpp:90-133 | the method accepts exactly what the trim window accepts, returns the adjusted interval, and on rejection leaves both values as they were |
| Timeline.EffectiveInterval | src/main.rs:217-241 | the start and end come from the frame's own display times when they are valid (and then are ordered); otherwise the start comes from its timestamp and the end from the next frame or one second later |
| Timeline.ClearStep | src/main.rs:183-200 | a clear command changes only the last event's out time, to the clipped and re-based clear time, and does nothing when there is no event |
| Timeline.SkipStep | src/main.rs:202-215 | a frame without bitmap and a non-positive timestamp, or with an empty bitmap, changes nothing |
| Timeline.PushStep | src/main.rs:217-277 | a bitmap frame adds an event exactly when its interval survives the trim window, is not empty and its PNG is written; the event has the trimmed times, the next PNG name, the frame's position and size; the file number advances only then |
| Timeline.StepNumbered | src/main.rs:258-277 | if event j is named with PNG number j before a step, it still is after it |
| Timeline.RunNumbered | src/main.rs:178-282 | after any number of frames event j's PNG file carries number j |
| Timeline.StepExtends | src/main.rs:183-277 | a step keeps every earlier event except that the last one's out time may change |
| Timeline.RunKeepsEvents | src/main.rs:178-282 | processing more frames only adds events after the existing ones, changing at most out times |
| Timeline.Lookahead | src/main.rs:176 | there is a lookahead frame exactly while frames remain |
| Timeline.GetNextFrame | src/main.rs:164-176 | reading a frame returns the next one and moves past it, or nothing at the end |
| Timeline.AdvanceToNextFrame | src/main.rs:300-312 | advancing succeeds exactly when there is a lookahead frame, which becomes current while the following frame is read |
| Timeline.ApplyClear | src/main.rs:184-195 | the last event's out time becomes the timecode of the clipped and re-based clear time |
| Timeline.MakeEvent | src/main.rs:209-276 | the event a bitmap frame becomes is the specified one, with timecodes at the run's frame rate |
| Timeline.ProcessFrame | src/main.rs:179-277 | one pass of the loop is one step of the specification |
| Timeline.RunTimeline | src/main.rs:160-282 | the Rust loop's events are the specified run over all frames, and their count is the next PNG number |
| Timeline.CppCount | src/main.cpp:255-403 | the C++ loop never handles more frames than there are |
| Timeline.CppGetNextFrame | src/ffmpeg_wrapper.cpp:349-363 | reading returns the next frame, or the reset frame at the end |
| Timeline.CppStopsAt | src/main.cpp:403 | the do-while stops after frame i when no lookahead is left and the current frame has no bitmap |
| Timeline.CppPass | src/main.cpp:255-403 | one pass of the do-while is one step of the specification, and it stops exactly where the C++ frame count says |
| Timeline.CppRunTimeline | src/main.cpp:239-403 | the C++ loop's events are the specified run over the frames it handles |
| Timeline.RunsCompared | src/main.cpp:255-403 | the two loops agree unless there are at least two frames and the last has no bitmap; then the C++ loop never handles that frame, so a final clear command leaves the last out time that the Rust loop updates |

## Left out

- FFmpeg is not part of this model: opening files, probing streams, the
  decoder, packet allocation and freeing. Decoded packets and frames are
  input sequences, and a decode result is a datatype.
- PNG and XML file writing is not modelled. A written PNG is the pixel
  sequence handed to the encoder, and a write's success is the parameter
  `io`. The BDN document is its sequence of lines.
- The f32 alpha blend of a semi-transparent pixel over a non-transparent
  one is a function parameter `blend`. The painting rule around it is
  modelled; the float arithmetic is not.
- Floating point is not modelled. Times and frame rates are exact `real`s.
  `round()` rounds halves up, and `f64` text parsing reads plain decimals
  without exponent, `inf` or `nan`. `{:.3}` and `setprecision(3)` renderings
  are taken as given text.
- Bdn.TimeToTc: requires a frame rate of at least one half. Below that the
  integer rate is 0 and the source divides by zero.
- Bdn.TimeToTc: the `as i32` saturation of very large frame counts is not
  modelled.
- i32 overflow is not modelled: the bounding box width and height, offsets
  and index arithmetic are unbounded integers. The source's `as usize` and
  `as u32` casts of negative values are left out with it.
- Text is a sequence of characters, and each character is kept whole.
  The value scan in `src/options.rs:94-113` pushes every UTF-8 byte as a
  `char` of its own, so the source mangles a non-ASCII option value. The
  final `trim()` of that value can also strip a continuation byte 0x85 or
  0xA0 as if it were whitespace. Neither effect is modelled. `trim()`
  itself is modelled with the full Unicode White_Space set.
- Compositor.GetVideoInfo: the record holds width, height, frame rate and
  start time only. The C++ `VideoInfo` fields `time_base`,
  `sample_aspect_ratio` and `is_interlaced` are not part of it. Interlacing
  reaches the model only as the `interlaced` parameter of
  `Bdn.DetermineVideoFormat`.
- Error messages are modelled as `Err` values. Where the source formats the
  offending input into the message, the text is approximated.
- The debug logging (`eprintln`, `std::cout`, `std::cerr`) is not modelled.
- The command-line front end is left out: argument parsing, help and
  version output, output directory handling, the `.mks` companion probe,
  and the plumbing of `main` before the subtitle loop.
- Config.DefaultAribFont: the platform font choice is a `windows`
  parameter, not a compile-time configuration.
- C++ null pointers are absent cases of `Option`.
- Compositor.CppGetNextSubtitleFrame: requires every decoded rectangle to
  be present and the time base denominator to be non-zero. The C++ reader
  dereferences rectangles without a null check and divides by the
  denominator, so those inputs have no defined behaviour to model.
- Bitmap.ExtractBitmapFromFrame: requires the frame's data to hold
  `linesize * height` bytes when the copy happens. The C++ `memcpy` reads
  past the buffer otherwise.
- Bitmap.SavePixels: requires the rows to lie inside the buffer for an
  accepted bitmap. The Rust slice indexing panics otherwise.
- C++ reference out-parameters are returned values. The C++ option map and
  the defaults map are passed in and returned rather than updated in place.
- `src/main.rs` imports `adjust_timestamp_for_range` from `config`, which
  `src/config.rs` does not define. It also builds `BdnInfo` with fields that
  `src/bdn.rs` does not declare. The trim window is therefore modelled from
  `src/main.cpp:90-133`.
- Config.DetermineCanvasSize: `src/main.rs:134-139` passes `&cli.resolution`
  as the first argument. The signature at `src/config.rs:17-22` has no such
  parameter. The model follows `config.rs`, so a Rust `--resolution`
  override is not modelled there. That override is modelled only in the
  C++ `Config.CppDetermineCanvasSize`.
- build scripts and headers are not part of this model.
