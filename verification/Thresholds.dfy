/**
 lib/thresholds.c: alert ranges, written `[@][start:][end]`. A `double` is an exact real here, and
 `strtod` is any function that gives the number a text starts with.
 */
module Thresholds {
  import opened Wrappers

  /** A range as a value. `inside` says that the alert is on for the values inside. */
  datatype Interval = Interval(start: real, end: real, startInfinity: bool, endInfinity: bool, inside: bool)

  predicate Contains(r: Interval, value: real) {
    (r.startInfinity || r.start <= value) && (r.endInfinity || value <= r.end)
  }

  /** check_range: whether an alert is to be raised. */
  function CheckRange(value: real, r: Interval): (alert: bool)
    ensures alert <==> Contains(r, value) == r.inside
  {
    var no, yes := r.inside, !r.inside;
    if !r.endInfinity && !r.startInfinity then
      if r.start <= value && value <= r.end then no else yes
    else if !r.startInfinity && r.endInfinity then
      if r.start <= value then no else yes
    else if r.startInfinity && !r.endInfinity then
      if value <= r.end then no else yes
    else no
  }

  const STATE_OK := 0
  const STATE_WARNING := 1
  const STATE_CRITICAL := 2

  datatype Thresholds = Thresholds(warning: Option<Interval>, critical: Option<Interval>)

  predicate Alerts(r: Option<Interval>, value: real) {
    r.Some? && CheckRange(value, r.value)
  }

  /** get_status: the critical range goes first. */
  function GetStatus(value: real, t: Thresholds): (status: int)
    ensures status == 2 <==> Alerts(t.critical, value)
    ensures status == 1 <==> Alerts(t.warning, value) && !Alerts(t.critical, value)
    ensures 0 <= status <= 2
  {
    if t.critical.Some? && CheckRange(value, t.critical.value) then STATE_CRITICAL
    else if t.warning.Some? && CheckRange(value, t.warning.value) then STATE_WARNING
    else STATE_OK
  }

  // ---------------------------------------------------------------------------
  // Parsing a range
  // ---------------------------------------------------------------------------

  /** The index of the first colon, or the length of the text. */
  function Colon(s: string): (k: nat)
    ensures k <= |s| && ':' !in s[..k] && (k < |s| ==> s[k] == ':')
  {
    if s == "" || s[0] == ':' then 0
    else
      var k := Colon(s[1..]) + 1;
      assert s[..k] == [s[0]] + s[1..][..k - 1];
      k
  }

  predicate StartsWith(s: string, c: char) {
    s != "" && s[0] == c
  }

  /** The range that a text without the mark '@' stands for. */
  function Bounds(str: string, inside: bool, strtod: string -> real): Interval {
    var k := Colon(str);
    var end := if k < |str| then str[k + 1..] else str;
    Interval(
      if k < |str| && str[0] != '~' then strtod(str) else 0.0,
      if end == "" then 0.0 else strtod(end),
      k < |str| && str[0] == '~',
      end == "",
      inside)
  }

  predicate Ordered(r: Interval) {
    r.startInfinity || r.endInfinity || r.start <= r.end
  }

  function Parse(text: string, strtod: string -> real): Option<Interval> {
    var r := if StartsWith(text, '@') then Bounds(text[1..], true, strtod) else Bounds(text, false, strtod);
    if Ordered(r) then Some(r) else None
  }

  class Range {
    var start: real
    var end: real
    var startInfinity: bool
    var endInfinity: bool
    var inside: bool

    function View(): Interval
      reads this
    {
      Interval(start, end, startInfinity, endInfinity, inside)
    }

    constructor ()
      ensures View() == Interval(0.0, 0.0, false, true, false)
    {
      start, end, startInfinity, endInfinity, inside := 0.0, 0.0, false, true, false;
    }

    /** set_range_start */
    method SetStart(value: real)
      modifies this
      ensures View() == old(View()).(start := value, startInfinity := false)
    {
      start := value;
      startInfinity := false;
    }

    /** set_range_end */
    method SetEnd(value: real)
      modifies this
      ensures View() == old(View()).(end := value, endInfinity := false)
    {
      end := value;
      endInfinity := false;
    }
  }

  /** parse_range_string: null where the source returns NULL. */
  method ParseRangeString(text: string, strtod: string -> real) returns (r: Range?)
    ensures r == null <==> Parse(text, strtod) == None
    ensures r != null ==> fresh(r) && Parse(text, strtod) == Some(r.View())
  {
    var range := new Range();
    var str := text;
    if StartsWith(str, '@') {
      range.inside := true;
      str := str[1..];
    }
    var k := Colon(str);
    var endStr := str;
    if k < |str| {
      if str[0] == '~' {
        range.startInfinity := true;
      } else {
        range.SetStart(strtod(str));
      }
      endStr := str[k + 1..];
    }
    var end := strtod(endStr);
    if endStr != "" {
      range.SetEnd(end);
    }
    if range.startInfinity || range.endInfinity || range.start <= range.end {
      return range;
    }
    return null;
  }

  // ---------------------------------------------------------------------------
  // What the texts mean
  // ---------------------------------------------------------------------------

  /** The alert that a text calls for. */
  predicate AlertOf(text: string, strtod: string -> real, value: real) {
    Alerts(Parse(text, strtod), value)
  }

  lemma {:induction false} ColonOf(a: string, b: string)
    requires ':' !in a && StartsWith(b, ':')
    ensures Colon(a + b) == |a|
  {
    if a == "" {
      assert a + b == b;
    } else {
      ColonOf(a[1..], b);
      assert (a + b)[1..] == a[1..] + b;
    }
  }

  lemma NoColon(a: string)
    requires ':' !in a
    ensures Colon(a) == |a|
  {}

  /** `end` alone: below 0 or above it. */
  lemma EndAlone(end: string, strtod: string -> real, value: real)
    requires end != "" && end[0] != '@' && ':' !in end
    ensures Parse(end, strtod) == None <==> strtod(end) < 0.0
    ensures Parse(end, strtod).Some? ==> (AlertOf(end, strtod, value) <==> value < 0.0 || value > strtod(end))
  {
    NoColon(end);
  }

  /** `start:`: below it. Reading the start stops at the colon. */
  lemma StartAlone(start: string, strtod: string -> real, value: real)
    requires ':' !in start && !StartsWith(start, '@') && !StartsWith(start, '~')
    requires strtod(start + ":") == strtod(start)
    ensures AlertOf(start + ":", strtod, value) <==> value < strtod(start)
  {
    ColonOf(start, ":");
    assert (start + ":")[|start| + 1..] == "";
  }

  /** `~:end`: above it. */
  lemma FromMinusInfinity(end: string, strtod: string -> real, value: real)
    requires end != ""
    ensures AlertOf("~:" + end, strtod, value) <==> value > strtod(end)
  {
    var s := "~:" + end;
    ColonOf("~", ":" + end);
    assert s == "~" + (":" + end);
    assert s[2..] == end;
  }

  /** `start:end`: outside them, if they are in order. */
  lemma StartAndEnd(start: string, end: string, strtod: string -> real, value: real)
    requires ':' !in start && !StartsWith(start, '@') && !StartsWith(start, '~') && end != ""
    requires strtod(start + ":" + end) == strtod(start)
    ensures Parse(start + ":" + end, strtod) == None <==> strtod(start) > strtod(end)
    ensures Parse(start + ":" + end, strtod).Some? ==>
            (AlertOf(start + ":" + end, strtod, value) <==> value < strtod(start) || value > strtod(end))
  {
    var s := start + ":" + end;
    assert s == start + (":" + end);
    ColonOf(start, ":" + end);
    assert s[|start| + 1..] == end;
  }

  /** Two closed ranges, one of them bounded below, are never complements: some value is in both or in neither. */
  lemma NotComplements(a: Interval, b: Interval) returns (value: real)
    requires Ordered(a) && Ordered(b) && !a.startInfinity
    ensures Contains(a, value) == Contains(b, value)
  {
    if Contains(a, a.start) == Contains(b, a.start) {
      value := a.start;
    } else if !Contains(b, a.start - 1.0) {
      value := a.start - 1.0;
    } else {
      value := (b.end + a.start) / 2.0;
    }
  }

  /** The mark makes no difference to whether a text is a range. */
  lemma AtParses(text: string, strtod: string -> real)
    requires !StartsWith(text, '@')
    ensures Parse("@" + text, strtod).Some? <==> Parse(text, strtod).Some?
  {
    assert ("@" + text)[1..] == text;
  }

  /** A range with a bound leaves out some value. */
  lemma Beyond(r: Interval) returns (value: real)
    requires !r.startInfinity || !r.endInfinity
    ensures !Contains(r, value)
  {
    value := if r.endInfinity then r.start - 1.0 else r.end + 1.0;
  }

  /**
   The mark '@' turns every alert of a range into its opposite, whatever the value, exactly when the
   text does not start with a mark of its own: a second one is not read as a mark.
   */
  lemma AtComplements(text: string, strtod: string -> real)
    requires Parse(text, strtod).Some?
    ensures (forall value: real :: AlertOf("@" + text, strtod, value) != AlertOf(text, strtod, value))
       <==> !StartsWith(text, '@')
  {
    assert ("@" + text)[1..] == text;
    if !StartsWith(text, '@') {
      AtParses(text, strtod);
    } else {
      var value := SameAlert(text, strtod);
      assert AlertOf("@" + text, strtod, value) == AlertOf(text, strtod, value);
    }
  }

  /** With two marks, some value gets the same alert as with one. */
  lemma SameAlert(text: string, strtod: string -> real) returns (value: real)
    requires Parse(text, strtod).Some? && StartsWith(text, '@')
    ensures AlertOf("@" + text, strtod, value) == AlertOf(text, strtod, value)
  {
    assert ("@" + text)[1..] == text;
    var marked, plain := Bounds(text, true, strtod), Bounds(text[1..], true, strtod);
    if Ordered(marked) {
      value := NotComplements(marked, plain);
    } else {
      RefusedIsBounded(text, strtod);
      value := Beyond(plain);
    }
  }

  /** A text that is refused with one more mark has a bound without it. */
  lemma RefusedIsBounded(text: string, strtod: string -> real)
    requires StartsWith(text, '@') && !Ordered(Bounds(text, true, strtod))
    ensures var r := Bounds(text[1..], true, strtod); !r.startInfinity || !r.endInfinity
  {
    var rest := text[1..];
    if ':' in rest {
      assert Colon(text) == Colon(rest) + 1;
      assert text[Colon(text) + 1..] == rest[Colon(rest) + 1..];
    }
  }
}
