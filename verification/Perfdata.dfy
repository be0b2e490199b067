/**
 lib/perfdata.c and UNIT_CONVERT of include/units.h: the limits published beside a percentage
 threshold, and how they relate to the alerts (plugins/check_memory.c). Arithmetic on `double` is exact here.
 */
module Perfdata {
  import opened Thresholds
  import opened Words
  import opened Wrappers

  /** A `double` that C can convert to `unsigned long long`. */
  predicate Convertible(x: real) {
    -1.0 < x < ULONG as real
  }

  /** The conversion: towards zero. */
  function Truncate(x: real): (r: Ulong)
    requires Convertible(x)
    ensures if x < 0.0 then r == 0 else r as real <= x < r as real + 1.0
  {
    if x < 0.0 then 0 else x.Floor
  }

  /** The bound of a range that gets published, if any. */
  function Published(threshold: Option<Interval>): Option<real> {
    match threshold
    case None => None
    case Some(r) =>
      if r.inside || r.startInfinity then None else Some(if r.endInfinity then r.start else r.end)
  }

  function Times(base: Ulong, t: real): real {
    base as real * t
  }

  /** The limit that a bound leads to. */
  function LimitFor(base: Ulong, t: real, percent: bool): Ulong
    requires Convertible(Times(base, t))
  {
    var limit := Truncate(Times(base, t));
    if percent then Truncate(limit as real / 100.0) else limit
  }

  /** The published bound is one that the source can convert. */
  predicate Sound(threshold: Option<Interval>, base: Ulong) {
    Published(threshold).Some? ==> Convertible(Times(base, Published(threshold).value))
  }

  /** get_perfdata_limit: None where the source returns -1. */
  function GetPerfdataLimit(threshold: Option<Interval>, base: Ulong, percent: bool): Option<Ulong>
    requires Sound(threshold, base)
  {
    match Published(threshold)
    case None => None
    case Some(t) => Some(LimitFor(base, t, percent))
  }

  /** Units of measure: b_shift, k_shift, m_shift, g_shift, and the powers of two that they divide by. */
  datatype Shift = B | K | M | G

  function Power(shift: Shift): int {
    match shift
    case B => 1
    case K => 0x400
    case M => 0x10_0000
    case G => 0x4000_0000
  }

  /** UNIT_CONVERT, from kilobytes: the shift to the left drops what leaves the word. */
  function UnitConvert(x: Ulong, shift: Shift): Ulong {
    x * 0x400 % ULONG / Power(shift)
  }

  /** get_perfdata_limit_converted */
  function GetPerfdataLimitConverted(threshold: Option<Interval>, base: Ulong, shift: Shift, percent: bool): Option<Ulong>
    requires Sound(threshold, base)
  {
    match GetPerfdataLimit(threshold, base, percent)
    case None => None
    case Some(limit) => Some(UnitConvert(limit, shift))
  }

  // ---------------------------------------------------------------------------
  // One floor instead of several
  // ---------------------------------------------------------------------------

  lemma FloorIs(x: real, n: int)
    requires n as real <= x < n as real + 1.0
    ensures x.Floor == n
  {}

  /** Rounding down before a division by a whole number makes no difference. */
  lemma FloorOfQuotient(x: real, n: int)
    requires n > 0
    ensures (x.Floor as real / n as real).Floor == (x / n as real).Floor
  {
    var q := (x.Floor as real / n as real).Floor;
    var f := x.Floor;
    assert q as real <= f as real / n as real < q as real + 1.0;
    QuotientBounds(f as real, n as real, q as real);
    assert q * n <= f < (q + 1) * n by {
      assert (q * n) as real == q as real * n as real;
      assert ((q + 1) * n) as real == (q as real + 1.0) * n as real;
    }
    assert f + 1 <= (q + 1) * n;
    assert (q * n) as real <= x < ((q + 1) * n) as real;
    assert q as real * n as real <= x < (q as real + 1.0) * n as real;
    QuotientBounds(x, n as real, q as real);
    FloorIs(x / n as real, q);
  }

  lemma Scale(a: real, b: real, n: real)
    requires n > 0.0
    ensures a < b <==> a * n < b * n
    ensures a > b <==> a * n > b * n
  {
    if a < b {
      assert (b - a) * n > 0.0;
    } else if a > b {
      assert (a - b) * n > 0.0;
    }
  }

  lemma TimesQuotient(x: real, n: real)
    requires n > 0.0
    ensures x / n * n == x
  {}

  lemma FactorBound(x: real, y: real, n: real, q: real)
    requires n > 0.0 && y * n == x
    ensures q <= y <==> q * n <= x
    ensures y < q <==> x < q * n
  {
    Scale(y, q, n);
  }

  lemma QuotientBounds(x: real, n: real, q: real)
    requires n > 0.0
    ensures q <= x / n < q + 1.0 <==> q * n <= x < (q + 1.0) * n
  {
    TimesQuotient(x, n);
    FactorBound(x, x / n, n, q);
    FactorBound(x, x / n, n, q + 1.0);
  }

  /** The kilobytes that a percentage stands for, exactly. */
  function Share(total: Ulong, t: real): real {
    Times(total, t) / 100.0
  }

  lemma TruncateIsFloor(x: real)
    requires x >= 0.0 && Convertible(x)
    ensures Truncate(x) == x.Floor
  {}

  lemma HundredthConvertible(limit: Ulong)
    ensures 0.0 <= limit as real / 100.0 && Convertible(limit as real / 100.0)
  {}

  lemma TimesNotNegative(base: Ulong, t: real)
    requires t >= 0.0
    ensures Times(base, t) >= 0.0
  {}

  /** A limit is the amount rounded down, and a percentage limit the share rounded down, once. */
  lemma LimitIsFloor(total: Ulong, t: real)
    requires t >= 0.0 && Convertible(Times(total, t))
    ensures LimitFor(total, t, true) == (total as real * t / 100.0).Floor
    ensures LimitFor(total, t, false) == (total as real * t).Floor
    ensures Share(total, t) >= 0.0
  {
    var x := Times(total, t);
    TimesNotNegative(total, t);
    TruncateIsFloor(x);
    HundredthConvertible(Truncate(x));
    TruncateIsFloor(Truncate(x) as real / 100.0);
    FloorOfQuotient(x, 100);
  }

  // ---------------------------------------------------------------------------
  // Alerts and limits
  // ---------------------------------------------------------------------------

  /** The percentage that check_memory compares. */
  function MemPercent(monitored: Ulong, total: Ulong): real
    requires total != 0
  {
    monitored as real * 100.0 / total as real
  }

  lemma PercentVersusShare(monitored: Ulong, total: Ulong, t: real)
    requires total != 0
    ensures MemPercent(monitored, total) > t <==> monitored as real > Share(total, t)
    ensures MemPercent(monitored, total) < t <==> (monitored as real) < Share(total, t)
  {
    var p, m, n := MemPercent(monitored, total), monitored as real, total as real;
    assert p * n == m * 100.0;
    Scale(p, t, n);
    assert Share(total, t) * 100.0 == t * n;
  }

  lemma NotNegative(monitored: Ulong, total: Ulong)
    requires total != 0
    ensures MemPercent(monitored, total) >= 0.0
  {}

  /** The percentage against the threshold is the kilobytes against the limit. */
  lemma VersusLimit(monitored: Ulong, total: Ulong, t: real)
    requires total != 0 && t >= 0.0 && Convertible(Times(total, t))
    ensures var percent, limit := monitored as real * 100.0 / total as real, LimitFor(total, t, true);
            && (percent > t <==> monitored > limit)
            && (percent < t <==> monitored < limit || (monitored == limit && limit as real != total as real * t / 100.0))
  {
    LimitIsFloor(total, t);
    PercentVersusShare(monitored, total, t);
    var limit := Share(total, t).Floor;
    assert limit as real <= Share(total, t) < limit as real + 1.0;
  }

  lemma LimitIs(range: Option<Interval>, t: real, total: Ulong)
    requires Published(range) == Some(t) && Convertible(Times(total, t))
    ensures Sound(range, total) && GetPerfdataLimit(range, total, true) == Some(LimitFor(total, t, true))
  {}

  lemma EndPublished(end: string, strtod: string -> real)
    requires end != "" && end[0] != '@' && ':' !in end && strtod(end) >= 0.0
    ensures Published(Parse(end, strtod)) == Some(strtod(end))
  {
    NoColon(end);
  }

  lemma StartPublished(start: string, strtod: string -> real)
    requires ':' !in start && !StartsWith(start, '@') && !StartsWith(start, '~') && strtod(start + ":") == strtod(start)
    ensures Published(Parse(start + ":", strtod)) == Some(strtod(start))
  {
    ColonOf(start, ":");
    assert (start + ":")[|start| + 1..] == "";
  }

  /** `t%`: the alert is raised exactly when the monitored kilobytes exceed the published limit. */
  lemma EndAlert(end: string, strtod: string -> real, monitored: Ulong, total: Ulong, percent: real)
    requires end != "" && end[0] != '@' && ':' !in end
    requires strtod(end) >= 0.0 && total != 0 && Convertible(Times(total, strtod(end)))
    requires percent == monitored as real * 100.0 / total as real
    ensures var range := Parse(end, strtod);
            && Published(range) == Some(strtod(end)) && Sound(range, total)
            && var limit := GetPerfdataLimit(range, total, true);
               limit.Some? && (AlertOf(end, strtod, percent) <==> monitored > limit.value)
  {
    EndAlone(end, strtod, percent);
    EndPublished(end, strtod);
    LimitIs(Parse(end, strtod), strtod(end), total);
    NotNegative(monitored, total);
    VersusLimit(monitored, total, strtod(end));
  }

  /**
   `t%:`: below the limit there is an alert, above it there is none; on the limit there is one exactly
   when the limit had to be rounded down.
   */
  lemma StartAlert(start: string, strtod: string -> real, monitored: Ulong, total: Ulong, percent: real, t: real)
    requires ':' !in start && !StartsWith(start, '@') && !StartsWith(start, '~')
    requires strtod(start + ":") == strtod(start) == t >= 0.0 && total != 0 && Convertible(Times(total, t))
    requires percent == monitored as real * 100.0 / total as real
    ensures var range := Parse(start + ":", strtod);
            && Published(range) == Some(t) && Sound(range, total)
            && var limit := GetPerfdataLimit(range, total, true);
               && limit.Some?
               && (AlertOf(start + ":", strtod, percent) <==>
                   monitored < limit.value || (monitored == limit.value && limit.value as real != total as real * t / 100.0))
  {
    StartAlone(start, strtod, percent);
    StartPublished(start, strtod);
    LimitIs(Parse(start + ":", strtod), t, total);
    VersusLimit(monitored, total, t);
  }

  // ---------------------------------------------------------------------------
  // Converted limits
  // ---------------------------------------------------------------------------

  /** An exact number of kilobytes, in the unit. */
  function InUnit(x: real, shift: Shift): real {
    x * 1024.0 / Power(shift) as real
  }

  lemma WholeQuotient(k: int, n: int)
    requires k >= 0 && n > 0
    ensures k / n == (k as real / n as real).Floor
  {
    var q := k / n;
    Products(q, n);
    Products(q + 1, n);
    assert q * n <= k < (q + 1) * n;
    QuotientBounds(k as real, n as real, q as real);
    FloorIs(k as real / n as real, q);
  }

  lemma Products(q: int, n: int)
    ensures (q * n) as real == q as real * n as real
  {}

  lemma ConvertedIs(x: real, shift: Shift)
    requires x >= 0.0 && x.Floor * 0x400 < ULONG
    ensures UnitConvert(x.Floor, shift) == (InUnit(x.Floor as real, shift)).Floor
  {
    WholeQuotient(x.Floor * 0x400, Power(shift));
    assert (x.Floor * 0x400) as real == x.Floor as real * 1024.0;
  }

  /**
   Converting the rounded kilobytes gives the exact amount in the unit, rounded down once: always in
   kB, MB and GB, and in bytes exactly if less than one byte was lost when the kilobytes were rounded.
   */
  lemma ConvertedIsFloor(x: real, shift: Shift)
    requires x >= 0.0 && x.Floor * 0x400 < ULONG
    ensures UnitConvert(x.Floor, shift) == InUnit(x, shift).Floor <==> shift != B || (x - x.Floor as real) * 1024.0 < 1.0
  {
    ConvertedIs(x, shift);
    if shift == B {
      BytesLost(x);
    } else {
      var n := Power(shift) / 0x400;
      UnitOfKilobytes(x, shift, n);
      UnitOfKilobytes(x.Floor as real, shift, n);
      FloorOfQuotient(x, n);
    }
  }

  lemma UnitOfKilobytes(x: real, shift: Shift, n: int)
    requires shift != B && n == Power(shift) / 0x400
    ensures n > 0 && InUnit(x, shift) == x / n as real
  {
    match shift {
      case K =>
        assert InUnit(x, K) == x * 1024.0 / 1024.0 == x;
        assert n == 1 && x / 1.0 == x;
      case M =>
        assert InUnit(x, M) == x * 1024.0 / 1048576.0 == x / 1024.0;
      case G =>
        assert InUnit(x, G) == x * 1024.0 / 1073741824.0 == x / 1048576.0;
    }
  }

  lemma BytesLost(x: real)
    requires x >= 0.0
    ensures InUnit(x.Floor as real, B).Floor == InUnit(x, B).Floor <==> (x - x.Floor as real) * 1024.0 < 1.0
  {
    var k := x.Floor * 1024;
    FloorIs(InUnit(x.Floor as real, B), k);
    assert InUnit(x, B) == k as real + (x - x.Floor as real) * 1024.0;
  }

  /** The limit published for a percentage, from its exact share. */
  lemma ConvertedLimit(threshold: Option<Interval>, t: real, total: Ulong, shift: Shift)
    requires Published(threshold) == Some(t) && t >= 0.0 && Convertible(Times(total, t))
    requires Share(total, t).Floor * 0x400 < ULONG
    ensures var share := total as real * t / 100.0;
            var exact := (match shift
                          case B => share * 1024.0
                          case K => share
                          case M => share / 1024.0
                          case G => share / 1024.0 / 1024.0);
            GetPerfdataLimitConverted(threshold, total, shift, true) == Some(exact.Floor) <==>
            shift != B || (share - share.Floor as real) * 1024.0 < 1.0
  {
    LimitIsFloor(total, t);
    ConvertedIsFloor(Share(total, t), shift);
    UnitSizes(Share(total, t));
  }

  /** Kilobytes in each of the units. */
  lemma UnitSizes(x: real)
    ensures InUnit(x, B) == x * 1024.0 && InUnit(x, K) == x
    ensures InUnit(x, M) == x / 1024.0 && InUnit(x, G) == x / 1024.0 / 1024.0
  {
    assert InUnit(x, M) == x * 1024.0 / 1048576.0;
    assert InUnit(x, G) == x * 1024.0 / 1073741824.0;
  }

  // ---------------------------------------------------------------------------
  // Which bound is published
  // ---------------------------------------------------------------------------

  /** No limit is published for a range that alerts inside, or starts at minus infinity. */
  lemma NothingPublished(text: string, strtod: string -> real)
    ensures Published(Parse("@" + text, strtod)) == None && Published(Parse("~:" + text, strtod)) == None
  {
    ColonOf("~", ":" + text);
    assert "~:" + text == "~" + (":" + text);
  }

  /** The end is, if there is one, and else the start. */
  lemma BoundPublished(start: string, end: string, strtod: string -> real)
    requires ':' !in start && !StartsWith(start, '@') && !StartsWith(start, '~')
    requires strtod(start + (":" + end)) == strtod(start)
    ensures Published(Parse(start + (":" + end), strtod))
         == if end == "" then Some(strtod(start)) else if strtod(start) <= strtod(end) then Some(strtod(end)) else None
    ensures end != "" && !StartsWith(end, '@') && ':' !in end ==>
            Published(Parse(end, strtod)) == if 0.0 <= strtod(end) then Some(strtod(end)) else None
  {
    var s := start + (":" + end);
    ColonOf(start, ":" + end);
    assert s[|start| + 1..] == end;
    if ':' !in end {
      NoColon(end);
    }
  }
}
