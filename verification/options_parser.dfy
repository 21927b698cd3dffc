/** The loops of parse_libaribcaption_opts in src/options.rs and
    src/options.cpp, proved to compute the maps RustOpts and CppOpts that
    module Options defines. Both versions run the same loop; they differ in
    the trimming (`ws`), in the Rust version trimming the whole string
    first, and in the C++ version writing into the caller's map. */
module OptionsParser {
  import opened Wrappers
  import opened Text
  import opened Options

  /** The blank-skipping loop after a comma: the first position at or after
      j that is not a space or a tab. */
  method SkipBlanksFrom(s: string, j: nat) returns (k: nat)
    requires j <= |s|
    ensures k == SkipBlanks(s, j)
    ensures j <= k <= |s| && (k < |s| ==> !IsBlank(s[k]))
    ensures forall m :: j <= m < k ==> IsBlank(s[m])
  {
    k := j;
    while k < |s| && IsBlank(s[k])
      invariant j <= k <= |s|
      invariant SkipBlanks(s, k) == SkipBlanks(s, j)
      invariant forall m :: j <= m < k ==> IsBlank(s[m])
      decreases |s| - k
    {
      k := k + 1;
    }
  }

  /** The look-ahead at a comma outside quotes: it ends the value when,
      after the blanks, a non-empty key without a comma comes before the
      next '='. */
  method NextKeyAt(s: string, i: nat, ws: char -> bool) returns (b: bool)
    requires i < |s|
    ensures b == NextKeyFollows(s, i, ws)
    ensures b ==> exists e :: i < e < |s| && s[e] == '='
  {
    var nextStart := SkipBlanksFrom(s, i + 1);
    b := false;
    match FindFrom(s, nextStart, '=')
    case None =>
    case Some(nextEq) =>
      var potentialKey := Trim(s[nextStart..nextEq], ws);
      b := |potentialKey| > 0 && ',' !in potentialKey;
  }

  /** The inner loop: the value runs from valueStart to the position i the
      scan stops at, and every character passed is copied into it. */
  method ScanValue(s: string, valueStart: nat, ws: char -> bool) returns (i: nat, value: string)
    requires valueStart <= |s|
    ensures i == ScanEnd(s, valueStart, valueStart, false, '\0', ws)
    ensures valueStart <= i <= |s| && value == s[valueStart..i]
    ensures i < |s| ==> s[i] == ',' && NextKeyFollows(s, i, ws)
  {
    i := valueStart;
    value := "";
    var inQuotes := false;
    var quoteChar := '\0';
    while i < |s|
      invariant valueStart <= i <= |s| && value == s[valueStart..i]
      invariant ScanEnd(s, valueStart, i, inQuotes, quoteChar, ws) == ScanEnd(s, valueStart, valueStart, false, '\0', ws)
      decreases |s| - i
    {
      var c := s[i];
      if IsQuote(c) && (i == valueStart || s[i - 1] != '\\') {
        if !inQuotes {
          inQuotes := true;
          quoteChar := c;
        } else if c == quoteChar {
          inQuotes := false;
        }
        value := value + [c];
        i := i + 1;
        continue;
      }
      if c == ',' && !inQuotes {
        var follows := NextKeyAt(s, i, ws);
        if follows {
          break;
        }
      }
      value := value + [c];
      i := i + 1;
    }
  }

  /** The outer loop, from `remaining` into `acc`: every pair Segments reads
      is stored in turn, excluded keys skipped. */
  method ParseInto(remaining0: string, acc: map<string, string>, ws: char -> bool) returns (result: map<string, string>)
    ensures result == Assign(acc, Segments(remaining0, ws))
  {
    result := acc;
    var remaining := remaining0;
    while |remaining| > 0
      invariant Assign(result, Segments(remaining, ws)) == Assign(acc, Segments(remaining0, ws))
      decreases |remaining|
    {
      var stop, next, stored := ReadOption(remaining, result, ws);
      result := stored;
      if stop {
        break;
      }
      remaining := next;
    }
  }

  /** One turn of the outer loop: trim the front, stop where there is
      nothing left or no '=', else read a key and its value, store the pair
      unless the key is excluded, and go on after the value's comma. */
  method ReadOption(remaining: string, result: map<string, string>, ws: char -> bool)
    returns (stop: bool, next: string, stored: map<string, string>)
    ensures stop ==> stored == result && Assign(result, Segments(remaining, ws)) == result
    ensures !stop ==> |next| < |remaining| && Assign(result, Segments(remaining, ws)) == Assign(stored, Segments(next, ws))
  {
    stored := result;
    next := remaining;
    var r := TrimStart(remaining, ws);
    if |r| == 0 {
      LoopStop(remaining, r, result, ws);
      return true, next, stored;
    }
    match IndexOf(r, '=')
    case None =>
      LoopStop(remaining, r, result, ws);
      stop := true;
    case Some(eqPos) =>
      var key := Trim(r[..eqPos], ws);
      var i, raw := ScanValue(r, eqPos + 1, ws);
      var value := Unquote(Trim(raw, ws));
      next := Rest(r, i);
      LoopStep(remaining, r, eqPos, i, key, value, next, result, ws);
      if !IsExcludedOpt(key) {
        stored := result[key := value];
      }
      stop := false;
  }

  /** parse_libaribcaption_opts of src/options.rs. */
  method ParseRustOpts(optsStr: string) returns (result: map<string, string>)
    ensures result == RustOpts(optsStr)
    ensures forall key :: IsExcludedOpt(key) ==> key !in result
  {
    result := ParseInto(Trim(optsStr, IsRustWhitespace), map[], IsRustWhitespace);
    forall key | IsExcludedOpt(key)
      ensures key !in result
    {
      ExcludedKeysAbsent(optsStr, map[], key);
    }
  }

  /** parse_libaribcaption_opts of src/options.cpp, which fills the map it
      is passed by reference: given what the map held, it returns what the
      map holds afterwards. */
  method ParseCppOpts(optsStr: string, existing: map<string, string>) returns (result: map<string, string>)
    ensures result == CppOpts(optsStr, existing)
    ensures existing.Keys <= result.Keys
  {
    result := ParseInto(optsStr, existing, IsBlank);
    forall key | key in existing
      ensures key in result
    {
      CppKeepsExisting(optsStr, existing, key);
    }
  }

  /** Trimming twice trims no more than once. */
  lemma {:induction false} TrimStartTwice(s: string, ws: char -> bool)
    ensures TrimStart(TrimStart(s, ws), ws) == TrimStart(s, ws)
    decreases |s|
  {
    if |s| > 0 && ws(s[0]) {
      TrimStartTwice(s[1..], ws);
      assert s[LeadingCount(s, ws)..] == s[1..][LeadingCount(s[1..], ws)..];
    }
  }

  /** The loop may trim before Segments does. */
  lemma SegmentsTrimmed(s: string, ws: char -> bool)
    ensures Segments(s, ws) == Segments(TrimStart(s, ws), ws)
  {
    TrimStartTwice(s, ws);
  }

  /** Where the loop stops, nothing more is stored. */
  lemma LoopStop(remaining: string, r: string, result: map<string, string>, ws: char -> bool)
    requires r == TrimStart(remaining, ws) && (|r| == 0 || IndexOf(r, '=').None?)
    ensures Assign(result, Segments(remaining, ws)) == result
  {
    SegmentsTrimmed(remaining, ws);
  }

  /** One turn of the loop stores the pair Segments reads first and goes on
      with what Segments reads next. */
  lemma LoopStep(remaining: string, r: string, eq: nat, i: nat, key: string, value: string, next: string,
               result: map<string, string>, ws: char -> bool)
    requires r == TrimStart(remaining, ws)
    requires |r| > 0
    requires IndexOf(r, '=') == Some(eq)
    requires eq + 1 <= i <= |r|
    requires i == ScanEnd(r, eq + 1, eq + 1, false, '\0', ws)
    requires key == Trim(r[..eq], ws)
    requires value == Unquote(Trim(r[eq + 1..i], ws))
    requires next == Rest(r, i)
    ensures |next| < |remaining|
    ensures Assign(result, Segments(remaining, ws))
         == Assign(if IsExcludedOpt(key) then result else result[key := value], Segments(next, ws))
  {
    SegmentsTrimmed(remaining, ws);
    TrimStartTwice(remaining, ws);
    SegmentsFront(r, ws, eq, i);
    AssignCons(result, (key, value), Segments(next, ws));
  }

  /** A segment read at the front of a trimmed string. */
  lemma SegmentsFront(r: string, ws: char -> bool, eq: nat, i: nat)
    requires TrimStart(r, ws) == r && |r| > 0 && IndexOf(r, '=') == Some(eq)
    requires eq + 1 <= i <= |r| && i == ScanEnd(r, eq + 1, eq + 1, false, '\0', ws)
    ensures Segments(r, ws) == [(Trim(r[..eq], ws), Unquote(Trim(r[eq + 1..i], ws)))] + Segments(Rest(r, i), ws)
  {
  }

  /** Storing one pair, then the rest. */
  lemma AssignCons(acc: map<string, string>, p: (string, string), segs: seq<(string, string)>)
    ensures Assign(acc, [p] + segs) == Assign(if IsExcludedOpt(p.0) then acc else acc[p.0 := p.1], segs)
  {
    assert ([p] + segs)[1..] == segs;
  }

  // ---------------------------------------------------------------------------
  // Where the two versions part

  /** A line break after the last value: Rust's outer trim removes it, the
      C++ code, which trims only spaces and tabs, keeps it in the value. */
  lemma TrailingNewline(key: string, value: string, existing: map<string, string>)
    requires PlainKey(key) && PlainValue(value) && !IsExcludedOpt(key)
    ensures RustOpts(key + "=" + value + "\n") == map[key := value]
    ensures CppOpts(key + "=" + value + "\n", existing) == existing[key := value + "\n"]
  {
    RustDropsNewline(key, value);
    CppKeepsNewline(key, value, existing);
  }

  lemma RustDropsNewline(key: string, value: string)
    requires PlainKey(key) && PlainValue(value) && !IsExcludedOpt(key)
    ensures RustOpts(key + "=" + value + "\n") == map[key := value]
  {
    var pairs := [(key, value)];
    assert PlainPairs(pairs);
    SegmentsOfJoin(pairs, IsRustWhitespace);
    NewlineTrimmed(key, value);
    AssignOne(map[], key, value);
  }

  /** Rust's trim takes the line break off the end and nothing else. */
  lemma NewlineTrimmed(key: string, value: string)
    requires PlainKey(key) && PlainValue(value)
    ensures Trim(key + "=" + value + "\n", IsRustWhitespace) == JoinOpts([(key, value)])
  {
    var j := key + "=" + value;
    var s := j + "\n";
    assert s[0] == key[0];
    assert s[|s| - 1] == '\n';
    assert j[|j| - 1] == (if |value| == 0 then '=' else value[|value| - 1]);
    assert s[..|s| - 1] == j;
    assert TrailingCount(s, IsRustWhitespace) == 1;
    assert TrimStart(s, IsRustWhitespace) == s;
  }

  lemma CppKeepsNewline(key: string, value: string, existing: map<string, string>)
    requires PlainKey(key) && PlainValue(value) && !IsExcludedOpt(key)
    ensures CppOpts(key + "=" + value + "\n", existing) == existing[key := value + "\n"]
  {
    var s := key + "=" + value + "\n";
    NewlineSegment(key, value);
    SegmentsHeadOf(s, IsBlank, |key|, |s|, key, value + "\n", "");
    assert Segments("", IsBlank) == [];
    AssignOne(existing, key, value + "\n");
  }

  /** With blanks-only trimming the whole string is one segment whose value
      ends in the line break. */
  lemma NewlineSegment(key: string, value: string)
    requires PlainKey(key) && PlainValue(value)
    ensures var s := key + "=" + value + "\n";
      SegmentAt(s, IsBlank, |key|, |s|, key, value + "\n", "")
  {
    var s := key + "=" + value + "\n";
    assert s[..|key|] == key && s[|key|] == '=' && s[|key| + 1..] == value + "\n";
    NewlineValueFacts(s, |key| + 1, value);
    assert WithinRustWhitespace(IsBlank);
    KeyFacts(s, key, IsBlank);
  }

  lemma NewlineValueFacts(s: string, vs: nat, value: string)
    requires PlainValue(value) && vs <= |s| && s[vs..] == value + "\n"
    ensures ScanEnd(s, vs, vs, false, '\0', IsBlank) == |s|
    ensures Unquote(Trim(s[vs..|s|], IsBlank)) == value + "\n" && Rest(s, |s|) == ""
  {
    var v := value + "\n";
    assert forall k :: vs <= k < |s| ==> s[k] == v[k - vs];
    ScanPlain(s, vs, vs, |s|, '\0', IsBlank);
    assert s[vs..|s|] == v;
    assert v[0] == (if |value| == 0 then '\n' else value[0]);
    TrimNoop(v, IsBlank);
  }

  /** Storing a single pair. */
  lemma AssignOne(acc: map<string, string>, key: string, value: string)
    requires !IsExcludedOpt(key)
    ensures Assign(acc, [(key, value)]) == acc[key := value]
  {
  }
}
