/** The timeline builder of src/main.rs and src/main.cpp: subtitle frames are
    read one ahead, and each frame either closes the last event (a clear
    command), is skipped, or becomes a new BDN event with its own PNG file.

    The frame source is the sequence of frames the decoder would return, in
    order; whether writing a PNG file succeeds is a parameter. */
module Timeline {
  import opened Wrappers
  import opened Bitmap
  import opened Compositor
  import Bdn

  /** The run's settings: the stream's start time, the optional --ss and --to
      trim points, the frame rate and the base name of the PNG files. */
  datatype Params = Params(streamStart: real, ss: Option<real>, to: Option<real>, fps: real, baseName: string)

  /** The events so far and the number of the next PNG file. */
  datatype Timeline = Timeline(events: seq<Bdn.SubtitleEvent>, frameIndex: nat)

  const Empty: Timeline := Timeline([], 0)

  // ---------------------------------------------------------------------------
  // The trim window

  /** adjust_timestamp_for_range of src/main.cpp: reject an interval that
      starts before --ss or at or after --to; otherwise clip the end to --to
      and move both ends back by --ss. */
  function RangeAdjust(start: real, end: real, ss: Option<real>, to: Option<real>): (r: Option<(real, real)>)
  {
    if ss.Some? && start < ss.value then None
    else if to.Some? && start >= to.value then None
    else
      var clipped := if to.Some? && end > to.value then to.value else end;
      var shift := if ss.Some? then ss.value else 0.0;
      Some((start - shift, clipped - shift))
  }

  /** Rejected exactly when the start is before --ss or not before --to; an
      accepted interval starts at or after 0 when --ss is given, before
      --to - --ss and ends at most there when --to is given, and is the
      input moved back by --ss (the end clipped to --to first). */
  lemma RangeAdjustSpec(start: real, end: real, ss: Option<real>, to: Option<real>)
    ensures var r := RangeAdjust(start, end, ss, to);
      var shift := if ss.Some? then ss.value else 0.0;
      (r.None? <==> (ss.Some? && start < ss.value) || (to.Some? && start >= to.value))
      && (r.Some? ==>
            r.value.0 + shift == start
            && (ss.Some? ==> r.value.0 >= 0.0)
            && (to.Some? ==> r.value.0 < to.value - shift && r.value.1 <= to.value - shift)
            && (to.None? || end <= to.value ==> r.value.1 + shift == end)
            && (to.Some? && end > to.value ==> r.value.1 + shift == to.value))
  {
  }

  /** The method form with the source's reference parameters: on rejection
      neither value is touched. */
  method AdjustTimestampForRange(start: real, end: real, ss: Option<real>, to: Option<real>)
    returns (accepted: bool, adjStart: real, adjEnd: real)
    ensures accepted <==> RangeAdjust(start, end, ss, to).Some?
    ensures accepted ==> (adjStart, adjEnd) == RangeAdjust(start, end, ss, to).value
    ensures !accepted ==> adjStart == start && adjEnd == end
  {
    adjStart, adjEnd := start, end;
    if ss.Some? && adjStart < ss.value {
      return false, adjStart, adjEnd;
    }
    if to.Some? && adjStart >= to.value {
      return false, adjStart, adjEnd;
    }
    if to.Some? && adjEnd > to.value {
      adjEnd := to.value;
    }
    if ss.Some? {
      adjStart := adjStart - ss.value;
      adjEnd := adjEnd - ss.value;
    }
    accepted := true;
  }

  // ---------------------------------------------------------------------------
  // Start and end of a frame's event

  /** The decoder's display times are used only when the start is positive
      and the end after it. */
  predicate OwnTimesValid(f: SubtitleFrame)
  {
    f.startTime > 0.0 && f.endTime > f.startTime
  }

  function EffectiveStart(f: SubtitleFrame, streamStart: real): real
  {
    Bdn.AdjustTimestamp(if OwnTimesValid(f) then f.startTime else f.timestamp, streamStart)
  }

  /** The end: the frame's own end time; else the next frame's start (its
      display start when it is a valid bitmap frame, else its timestamp);
      else one second after the start. */
  function EffectiveEnd(f: SubtitleFrame, next: Option<SubtitleFrame>, streamStart: real): real
  {
    if OwnTimesValid(f) then Bdn.AdjustTimestamp(f.endTime, streamStart)
    else match next
      case Some(n) =>
        Bdn.AdjustTimestamp(if n.bitmap.Some? && OwnTimesValid(n) then n.startTime else n.timestamp, streamStart)
      case None => EffectiveStart(f, streamStart) + 1.0
  }

  /** Both ends are measured from the stream start; an interval taken from
      the frame's own valid display times, or from the one-second fallback,
      is never empty, while one borrowed from the next frame can be. */
  lemma EffectiveInterval(f: SubtitleFrame, next: Option<SubtitleFrame>, streamStart: real)
    ensures OwnTimesValid(f) ==>
      EffectiveStart(f, streamStart) + streamStart == f.startTime
      && EffectiveEnd(f, next, streamStart) + streamStart == f.endTime
      && EffectiveStart(f, streamStart) < EffectiveEnd(f, next, streamStart)
    ensures !OwnTimesValid(f) ==> EffectiveStart(f, streamStart) + streamStart == f.timestamp
    ensures !OwnTimesValid(f) && next.None? ==> EffectiveEnd(f, next, streamStart) == EffectiveStart(f, streamStart) + 1.0
    ensures !OwnTimesValid(f) && next.Some? ==>
      EffectiveEnd(f, next, streamStart) + streamStart
        == (if next.value.bitmap.Some? && OwnTimesValid(next.value) then next.value.startTime else next.value.timestamp)
  {
  }

  /** The out time a clear command gives the last event: its timestamp from
      the stream start, clipped to --to, moved back by --ss. */
  function ClearTime(timestamp: real, p: Params): real
  {
    var t := Bdn.AdjustTimestamp(timestamp, p.streamStart);
    var clipped := if p.to.Some? && t > p.to.value then p.to.value else t;
    if p.ss.Some? then clipped - p.ss.value else clipped
  }

  // ---------------------------------------------------------------------------
  // One frame

  predicate IsClear(f: SubtitleFrame)
  {
    f.bitmap.None? && f.timestamp > 0.0
  }

  /** Whether save_bitmap_as_png succeeds: the validity gate, then the write,
      whose outcome `io` gives. */
  predicate Saved(b: BitmapData, name: string, io: string -> bool)
  {
    SaveAccepts(b) && io(name)
  }

  /** A timecode formatter: time_to_tc at the run's frame rate. The
      functions below take it as a parameter so that what they say does not
      depend on how timecodes are spelled. */
  type TcFormat = real -> string

  function TcAt(fps: real): TcFormat
    requires fps >= 0.5
  {
    s => Bdn.Tc(s, fps)
  }

  /** A clear command's effect on the events: the last one, if there is
      one, gets the given out time. */
  function Cleared(events: seq<Bdn.SubtitleEvent>, outTc: string): seq<Bdn.SubtitleEvent>
  {
    if |events| == 0 then events else events[|events| - 1 := events[|events| - 1].(outTc := outTc)]
  }

  /** The event a bitmap frame becomes: none for an empty bitmap, for an
      interval the trim window rejects or that is empty, or when its PNG is
      not written. */
  function NewEvent(cur: SubtitleFrame, next: Option<SubtitleFrame>, frameIndex: nat, p: Params, io: string -> bool, tc: TcFormat): Option<Bdn.SubtitleEvent>
    requires cur.bitmap.Some?
  {
    var b := cur.bitmap.value;
    if b.width == 0 || b.height == 0 then None
    else match RangeAdjust(EffectiveStart(cur, p.streamStart), EffectiveEnd(cur, next, p.streamStart), p.ss, p.to)
      case None => None
      case Some((s, e)) =>
        var name := PngName(frameIndex, p.baseName);
        if s >= e || !Saved(b, name, io) then None
        else Some(Bdn.SubtitleEvent(tc(s), tc(e), name, cur.x, cur.y, b.width, b.height))
  }

  /** What one pass of the loop does with the current frame and the
      lookahead. */
  function Step(t: Timeline, cur: SubtitleFrame, next: Option<SubtitleFrame>, p: Params, io: string -> bool, tc: TcFormat): Timeline
  {
    if cur.bitmap.None? then
      if cur.timestamp > 0.0 then t.(events := Cleared(t.events, tc(ClearTime(cur.timestamp, p)))) else t
    else match NewEvent(cur, next, t.frameIndex, p, io, tc)
      case None => t
      case Some(ev) => Timeline(t.events + [ev], t.frameIndex + 1)
  }

  /** A clear command with a positive timestamp changes only the out time
      of the last event, and nothing at all when there is no event yet. */
  lemma ClearStep(t: Timeline, cur: SubtitleFrame, next: Option<SubtitleFrame>, p: Params, io: string -> bool, tc: TcFormat)
    requires IsClear(cur)
    ensures var u := Step(t, cur, next, p, io, tc);
      u.frameIndex == t.frameIndex && |u.events| == |t.events|
      && (|t.events| == 0 ==> u == t)
      && (forall j :: 0 <= j < |t.events| - 1 ==> u.events[j] == t.events[j])
      && (|t.events| > 0 ==>
            u.events[|t.events| - 1] == t.events[|t.events| - 1].(outTc := tc(ClearTime(cur.timestamp, p))))
  {
  }

  /** Frames without a bitmap and without a positive timestamp, and empty
      bitmaps, change nothing. */
  lemma SkipStep(t: Timeline, cur: SubtitleFrame, next: Option<SubtitleFrame>, p: Params, io: string -> bool, tc: TcFormat)
    requires (cur.bitmap.None? && cur.timestamp <= 0.0)
      || (cur.bitmap.Some? && (cur.bitmap.value.width == 0 || cur.bitmap.value.height == 0))
    ensures Step(t, cur, next, p, io, tc) == t
  {
  }

  /** A frame adds an event exactly when it has a non-empty bitmap, its
      interval survives the trim window, is not empty, and its PNG is
      written; the event goes at the end, under the next PNG name, with the
      frame's position and size, and the PNG counter moves on by one. */
  lemma PushStep(t: Timeline, cur: SubtitleFrame, next: Option<SubtitleFrame>, p: Params, io: string -> bool, tc: TcFormat)
    requires cur.bitmap.Some?
    ensures var u := Step(t, cur, next, p, io, tc);
      var b := cur.bitmap.value;
      var r := RangeAdjust(EffectiveStart(cur, p.streamStart), EffectiveEnd(cur, next, p.streamStart), p.ss, p.to);
      (|u.events| == |t.events| + 1 <==>
         b.width != 0 && b.height != 0 && r.Some? && r.value.0 < r.value.1
         && Saved(b, PngName(t.frameIndex, p.baseName), io))
      && (|u.events| == |t.events| + 1 ==>
            u.events[..|t.events|] == t.events && u.frameIndex == t.frameIndex + 1
            && u.events[|t.events|] == Bdn.SubtitleEvent(tc(r.value.0), tc(r.value.1),
                                                         PngName(t.frameIndex, p.baseName), cur.x, cur.y, b.width, b.height))
      && (|u.events| != |t.events| + 1 ==> u == t)
  {
    match NewEvent(cur, next, t.frameIndex, p, io, tc)
    case None =>
    case Some(ev) =>
      assert (t.events + [ev])[..|t.events|] == t.events;
  }

  /** PNG numbering: the counter equals the number of events and event j
      uses PNG number j, so the names are gapless. */
  predicate Numbered(t: Timeline, baseName: string)
  {
    t.frameIndex == |t.events| && forall j :: 0 <= j < |t.events| ==> t.events[j].pngFile == PngName(j, baseName)
  }

  lemma StepNumbered(t: Timeline, cur: SubtitleFrame, next: Option<SubtitleFrame>, p: Params, io: string -> bool, tc: TcFormat)
    requires Numbered(t, p.baseName)
    ensures Numbered(Step(t, cur, next, p, io, tc), p.baseName)
  {
    var u := Step(t, cur, next, p, io, tc);
    if cur.bitmap.Some? {
      PushStep(t, cur, next, p, io, tc);
      if |u.events| == |t.events| + 1 {
        forall j | 0 <= j < |u.events| ensures u.events[j].pngFile == PngName(j, p.baseName) {
          if j < |t.events| {
            assert u.events[j] == u.events[..|t.events|][j];
          }
        }
      }
    } else if IsClear(cur) {
      ClearStep(t, cur, next, p, io, tc);
      forall j | 0 <= j < |u.events| ensures u.events[j].pngFile == t.events[j].pngFile {
      }
    }
  }

  // ---------------------------------------------------------------------------
  // The whole run

  /** The frame the decoder yields at position k, if any. */
  function Lookahead(frames: seq<SubtitleFrame>, k: nat): (f: Option<SubtitleFrame>)
    ensures f.Some? <==> k < |frames|
  {
    if k < |frames| then Some(frames[k]) else None
  }

  /** The first k frames, each with the frame after it as lookahead. */
  function RunUpTo(frames: seq<SubtitleFrame>, k: nat, p: Params, io: string -> bool, tc: TcFormat): Timeline
    requires k <= |frames|
  {
    if k == 0 then Empty
    else Step(RunUpTo(frames, k - 1, p, io, tc), frames[k - 1], Lookahead(frames, k), p, io, tc)
  }

  /** The Rust loop handles every frame. */
  function RustRun(frames: seq<SubtitleFrame>, p: Params, io: string -> bool, tc: TcFormat): Timeline
  {
    RunUpTo(frames, |frames|, p, io, tc)
  }

  /** How many frames the C++ do-while handles: all of them, except a last
      frame without a bitmap that is not also the first. */
  function CppCount(frames: seq<SubtitleFrame>): (n: nat)
    ensures n <= |frames|
  {
    if |frames| >= 2 && frames[|frames| - 1].bitmap.None? then |frames| - 1 else |frames|
  }

  function CppRun(frames: seq<SubtitleFrame>, p: Params, io: string -> bool, tc: TcFormat): Timeline
  {
    RunUpTo(frames, CppCount(frames), p, io, tc)
  }

  /** Every prefix of the run numbers its PNG files without gaps. */
  lemma {:induction false} RunNumbered(frames: seq<SubtitleFrame>, k: nat, p: Params, io: string -> bool, tc: TcFormat)
    requires k <= |frames|
    ensures Numbered(RunUpTo(frames, k, p, io, tc), p.baseName)
  {
    if k > 0 {
      RunNumbered(frames, k - 1, p, io, tc);
      StepNumbered(RunUpTo(frames, k - 1, p, io, tc), frames[k - 1], Lookahead(frames, k), p, io, tc);
    }
  }

  /** b grows a out of its events: nothing is removed or reordered, every
      event keeps all but its out time, and all but the last keep that too. */
  predicate Extends(a: seq<Bdn.SubtitleEvent>, b: seq<Bdn.SubtitleEvent>)
  {
    |a| <= |b|
    && (forall j :: 0 <= j < |a| ==> b[j] == a[j].(outTc := b[j].outTc))
    && (forall j :: 0 <= j < |a| - 1 ==> b[j] == a[j])
  }

  lemma ExtendsTrans(a: seq<Bdn.SubtitleEvent>, b: seq<Bdn.SubtitleEvent>, c: seq<Bdn.SubtitleEvent>)
    requires Extends(a, b) && Extends(b, c)
    ensures Extends(a, c)
  {
    forall j | 0 <= j < |a|
      ensures c[j] == a[j].(outTc := c[j].outTc)
    {
      assert c[j] == b[j].(outTc := c[j].outTc);
    }
  }

  /** One pass only appends an event or rewrites the last out time. */
  lemma StepExtends(t: Timeline, cur: SubtitleFrame, next: Option<SubtitleFrame>, p: Params, io: string -> bool, tc: TcFormat)
    ensures Extends(t.events, Step(t, cur, next, p, io, tc).events)
  {
    if cur.bitmap.Some? {
      PushStep(t, cur, next, p, io, tc);
    } else if IsClear(cur) {
      ClearStep(t, cur, next, p, io, tc);
    }
  }

  lemma ExtendsThroughStep(a: seq<Bdn.SubtitleEvent>, t: Timeline, cur: SubtitleFrame, next: Option<SubtitleFrame>,
                            p: Params, io: string -> bool, tc: TcFormat)
    requires Extends(a, t.events)
    ensures Extends(a, Step(t, cur, next, p, io, tc).events)
  {
    StepExtends(t, cur, next, p, io, tc);
    ExtendsTrans(a, t.events, Step(t, cur, next, p, io, tc).events);
  }

  /** Events are never removed or reordered: each later prefix of the run
      extends every earlier one. */
  lemma {:induction false} RunKeepsEvents(frames: seq<SubtitleFrame>, k: nat, m: nat, p: Params, io: string -> bool, tc: TcFormat)
    requires k <= m <= |frames|
    ensures Extends(RunUpTo(frames, k, p, io, tc).events, RunUpTo(frames, m, p, io, tc).events)
  {
    if k < m {
      RunKeepsEvents(frames, k, m - 1, p, io, tc);
      ExtendsThroughStep(RunUpTo(frames, k, p, io, tc).events, RunUpTo(frames, m - 1, p, io, tc),
                         frames[m - 1], Lookahead(frames, m), p, io, tc);
    }
  }

  /** The two loops differ only on the last frame: when it has a bitmap (or
      is the only frame) they agree; otherwise the C++ loop stops before it,
      so a clear command that ends the stream is never applied there, while
      the Rust loop applies it to the last event. */
  lemma RunsCompared(frames: seq<SubtitleFrame>, p: Params, io: string -> bool, tc: TcFormat)
    ensures |frames| < 2 || frames[|frames| - 1].bitmap.Some? ==> CppRun(frames, p, io, tc) == RustRun(frames, p, io, tc)
    ensures |frames| >= 2 && frames[|frames| - 1].bitmap.None? ==>
      var before := RunUpTo(frames, |frames| - 1, p, io, tc);
      CppRun(frames, p, io, tc) == before
      && RustRun(frames, p, io, tc) == Step(before, frames[|frames| - 1], None, p, io, tc)
    ensures |frames| >= 2 && IsClear(frames[|frames| - 1]) && |RunUpTo(frames, |frames| - 1, p, io, tc).events| > 0 ==>
      var before := RunUpTo(frames, |frames| - 1, p, io, tc).events;
      var n := |before|;
      CppRun(frames, p, io, tc).events[n - 1] == before[n - 1]
      && RustRun(frames, p, io, tc).events[n - 1]
           == before[n - 1].(outTc := tc(ClearTime(frames[|frames| - 1].timestamp, p)))
  {
    if |frames| >= 2 && IsClear(frames[|frames| - 1]) {
      ClearStep(RunUpTo(frames, |frames| - 1, p, io, tc), frames[|frames| - 1], None, p, io, tc);
    }
  }

  // ---------------------------------------------------------------------------
  // The loops

  /** get_next_subtitle_frame over the frame sequence: the frame at pos, if
      any, and the position after it. */
  method GetNextFrame(frames: seq<SubtitleFrame>, pos: nat) returns (f: Option<SubtitleFrame>, pos': nat)
    ensures f == Lookahead(frames, pos)
    ensures pos' == if pos < |frames| then pos + 1 else pos
  {
    if pos < |frames| {
      return Some(frames[pos]), pos + 1;
    }
    return None, pos;
  }

  /** advance_to_next_frame: false, with nothing changed, when there is no
      lookahead; otherwise the lookahead becomes current and a fresh one is
      read. */
  method AdvanceToNextFrame(frames: seq<SubtitleFrame>, pos: nat, current: SubtitleFrame, next: Option<SubtitleFrame>)
    returns (advanced: bool, current': SubtitleFrame, next': Option<SubtitleFrame>, pos': nat)
    ensures advanced <==> next.Some?
    ensures advanced ==>
      current' == next.value && next' == Lookahead(frames, pos) && pos' == (if pos < |frames| then pos + 1 else pos)
    ensures !advanced ==> current' == current && next' == next && pos' == pos
  {
    if next.Some? {
      current' := next.value;
      next', pos' := GetNextFrame(frames, pos);
      advanced := true;
    } else {
      advanced, current', next', pos' := false, current, next, pos;
    }
  }

  /** The clear branch: the clear time is worked out, and given to the last
      event, only when there is one. */
  method ApplyClear(events: seq<Bdn.SubtitleEvent>, timestamp: real, p: Params) returns (events': seq<Bdn.SubtitleEvent>)
    requires p.fps >= 0.5
    ensures events' == Cleared(events, Bdn.Tc(ClearTime(timestamp, p), p.fps))
  {
    events' := events;
    if |events| > 0 {
      var clearTs := Bdn.AdjustTimestamp(timestamp, p.streamStart);
      if p.to.Some? && clearTs > p.to.value {
        clearTs := p.to.value;
      }
      if p.ss.Some? {
        clearTs := clearTs - p.ss.value;
      }
      assert clearTs == ClearTime(timestamp, p);
      var tc := Bdn.TimeToTc(clearTs, p.fps);
      var last := |events| - 1;
      events' := events[last := events[last].(outTc := tc)];
    }
  }

  /** The bitmap branch: the event the frame becomes, if any. */
  method MakeEvent(current: SubtitleFrame, next: Option<SubtitleFrame>, frameIndex: nat, p: Params, io: string -> bool)
    returns (ev: Option<Bdn.SubtitleEvent>)
    requires p.fps >= 0.5 && current.bitmap.Some?
    ensures ev == NewEvent(current, next, frameIndex, p, io, TcAt(p.fps))
  {
    var b := current.bitmap.value;
    if b.width == 0 || b.height == 0 {
      return None;
    }
    var start := EffectiveStart(current, p.streamStart);
    var end := EffectiveEnd(current, next, p.streamStart);
    var accepted, adjStart, adjEnd := AdjustTimestampForRange(start, end, p.ss, p.to);
    if !accepted || adjStart >= adjEnd {
      return None;
    }
    var name := PngName(frameIndex, p.baseName);
    if !Saved(b, name, io) {
      return None;
    }
    var inTc := Bdn.TimeToTc(adjStart, p.fps);
    var outTc := Bdn.TimeToTc(adjEnd, p.fps);
    ev := Some(Bdn.SubtitleEvent(inTc, outTc, name, current.x, current.y, b.width, b.height));
  }

  /** The body shared by both loops: one frame, given its lookahead. */
  method ProcessFrame(events: seq<Bdn.SubtitleEvent>, frameIndex: nat, current: SubtitleFrame,
                      next: Option<SubtitleFrame>, p: Params, io: string -> bool)
    returns (events': seq<Bdn.SubtitleEvent>, frameIndex': nat)
    requires p.fps >= 0.5
    ensures Timeline(events', frameIndex') == Step(Timeline(events, frameIndex), current, next, p, io, TcAt(p.fps))
  {
    events', frameIndex' := events, frameIndex;
    if current.bitmap.None? {
      if current.timestamp > 0.0 {
        events' := ApplyClear(events, current.timestamp, p);
      }
    } else {
      var ev := MakeEvent(current, next, frameIndex, p, io);
      if ev.Some? {
        events', frameIndex' := events + [ev.value], frameIndex + 1;
      }
    }
  }

  /** The Rust loop of run: the first frame and its lookahead are read, then
      every pass handles the current frame and advances, until there is no
      lookahead left. */
  method RunTimeline(frames: seq<SubtitleFrame>, p: Params, io: string -> bool) returns (events: seq<Bdn.SubtitleEvent>)
    requires p.fps >= 0.5
    ensures Timeline(events, |events|) == RustRun(frames, p, io, TcAt(p.fps))
  {
    var first, pos := GetNextFrame(frames, 0);
    if first.None? {
      return [];
    }
    var current := first.value;
    var next;
    next, pos := GetNextFrame(frames, pos);
    events := [];
    var frameIndex := 0;
    ghost var i := 0;
    while true
      invariant i < |frames| && current == frames[i]
      invariant next == Lookahead(frames, i + 1) && pos == (if i + 2 <= |frames| then i + 2 else |frames|)
      invariant Timeline(events, frameIndex) == RunUpTo(frames, i, p, io, TcAt(p.fps))
      decreases |frames| - i
    {
      events, frameIndex := ProcessFrame(events, frameIndex, current, next, p, io);
      var advanced;
      advanced, current, next, pos := AdvanceToNextFrame(frames, pos, current, next);
      if !advanced {
        break;
      }
      i := i + 1;
    }
    RunNumbered(frames, |frames|, p, io, TcAt(p.fps));
  }

  /** get_next_subtitle_frame of the C++ version over the frame sequence:
      false, with the frame left reset, once the frames run out. */
  method CppGetNextFrame(frames: seq<SubtitleFrame>, pos: nat) returns (ok: bool, f: SubtitleFrame, pos': nat)
    ensures ok <==> pos < |frames|
    ensures ok ==> f == frames[pos] && pos' == pos + 1
    ensures !ok ==> f == ResetFrame && pos' == pos
  {
    f := ResetFrame;
    if pos < |frames| {
      return true, frames[pos], pos + 1;
    }
    return false, f, pos;
  }

  /** Where the do-while stops: after frame i when no frame follows the one
      after it and that one, if it exists, has no bitmap; the last frame is
      handled when it has a bitmap or is the only frame. That is the frame
      count of CppCount. */
  lemma CppStopsAt(frames: seq<SubtitleFrame>, i: nat)
    requires i < |frames| && |frames| <= i + 2
    requires i + 1 < |frames| ==> frames[i + 1].bitmap.None?
    requires i >= 1 && i + 1 == |frames| ==> frames[i].bitmap.Some?
    ensures CppCount(frames) == i + 1
  {
  }

  /** What the do-while of main.cpp holds before handling frame i: the
      current frame, the lookahead (the reset frame when there is none), the
      read position, and that a last frame reached after the first has a
      bitmap. */
  ghost predicate CppLoopState(frames: seq<SubtitleFrame>, i: nat, current: SubtitleFrame, hasNext: bool,
                               next: SubtitleFrame, pos: nat)
  {
    && i < |frames| && current == frames[i]
    && (hasNext <==> i + 1 < |frames|) && (hasNext ==> next == frames[i + 1]) && (!hasNext ==> next == ResetFrame)
    && pos == (if i + 2 <= |frames| then i + 2 else |frames|)
    && (i >= 1 && i + 1 == |frames| ==> frames[i].bitmap.Some?)
  }

  /** The do-while of main.cpp: after each frame the lookahead is promoted
      (the reset frame when there was none) and a fresh one is read; the
      loop goes on while the new current frame has a bitmap or another frame
      follows it. */
  method CppRunTimeline(frames: seq<SubtitleFrame>, p: Params, io: string -> bool) returns (events: seq<Bdn.SubtitleEvent>)
    requires p.fps >= 0.5
    ensures Timeline(events, |events|) == CppRun(frames, p, io, TcAt(p.fps))
  {
    var got, current, pos := CppGetNextFrame(frames, 0);
    if !got {
      return [];
    }
    var hasNext, next;
    hasNext, next, pos := CppGetNextFrame(frames, pos);
    events := [];
    var frameIndex := 0;
    ghost var i := 0;
    while true
      invariant CppLoopState(frames, i, current, hasNext, next, pos)
      invariant Timeline(events, frameIndex) == RunUpTo(frames, i, p, io, TcAt(p.fps))
      decreases |frames| - i
    {
      var stop;
      stop, events, frameIndex, current, hasNext, next, pos := CppPass(frames, i, events, frameIndex, current, hasNext, next, pos, p, io);
      if stop {
        break;
      }
      i := i + 1;
    }
    RunNumbered(frames, CppCount(frames), p, io, TcAt(p.fps));
  }

  /** One pass of the do-while: frame i is handled with its lookahead, the
      lookahead is promoted and a fresh one read; the loop stops after frame
      i exactly when that is the last frame C++ handles. */
  method CppPass(frames: seq<SubtitleFrame>, ghost i: nat, events: seq<Bdn.SubtitleEvent>, frameIndex: nat,
                 current: SubtitleFrame, hasNext: bool, next: SubtitleFrame, pos: nat, p: Params, io: string -> bool)
    returns (stop: bool, events': seq<Bdn.SubtitleEvent>, frameIndex': nat, current': SubtitleFrame,
             hasNext': bool, next': SubtitleFrame, pos': nat)
    requires p.fps >= 0.5
    requires CppLoopState(frames, i, current, hasNext, next, pos)
    requires Timeline(events, frameIndex) == RunUpTo(frames, i, p, io, TcAt(p.fps))
    ensures Timeline(events', frameIndex') == RunUpTo(frames, i + 1, p, io, TcAt(p.fps))
    ensures stop ==> CppCount(frames) == i + 1
    ensures !stop ==> CppLoopState(frames, i + 1, current', hasNext', next', pos')
  {
    var lookahead := if hasNext then Some(next) else None;
    assert lookahead == Lookahead(frames, i + 1);
    events', frameIndex' := ProcessFrame(events, frameIndex, current, lookahead, p, io);
    current' := next;
    hasNext', next', pos' := CppGetNextFrame(frames, pos);
    stop := !(current'.bitmap.Some? || hasNext');
    if stop {
      CppStopsAt(frames, i);
    }
  }

}
