/**
 The sampling loop of plugins/check_cpu.c. The kernel's idle counter may run backwards for a moment;
 what it falls short is carried over to the next sample as a debt. The counters are `unsigned long
 long`, but the debt goes through casts to `int`.
 */
module CpuSampling {
  import opened Thresholds
  import opened Words

  /** One reading of the counters of a CPU. */
  datatype CpuTime = CpuTime(user: Ulong, nice: Ulong, system: Ulong, irq: Ulong, softirq: Ulong,
                             idle: Ulong, iowait: Ulong, steal: Ulong)

  /** What the loop holds for a CPU: an element of each of the arrays duser .. ratio, and debt. */
  datatype Shares = Shares(user: Ulong, system: Ulong, idle: Ulong, iowait: Ulong, steal: Ulong, ratio: Ulong, debt: Int)

  // ---------------------------------------------------------------------------
  // One sample
  // ---------------------------------------------------------------------------

  /** The idle time to report for a sample, and the debt it leaves. */
  function IdleStep(debt: Int, before: Ulong, now: Ulong): (Ulong, Int) {
    var change := SubUlong(now, before);
    var idle := if debt != 0 then FromInt(AddInt(ToInt(change), debt)) else change;
    if ToInt(idle) < 0 then (0, ToInt(idle)) else (idle, 0)
  }

  function Ratio(user: Ulong, system: Ulong, idle: Ulong, iowait: Ulong, steal: Ulong): Ulong {
    AddUlong(AddUlong(AddUlong(AddUlong(user, system), idle), iowait), steal)
  }

  /** All the time is idle time where there is none at all. */
  function WithRatio(user: Ulong, system: Ulong, idle: Ulong, iowait: Ulong, steal: Ulong, debt: Int): (s: Shares)
    ensures s.ratio != 0 && s.debt == debt
  {
    var ratio := Ratio(user, system, idle, iowait, steal);
    if ratio == 0 then Shares(user, system, 1, iowait, steal, 1, debt)
    else Shares(user, system, idle, iowait, steal, ratio, debt)
  }

  function First(t: CpuTime): Shares {
    WithRatio(AddUlong(t.user, t.nice), AddUlong(AddUlong(t.system, t.irq), t.softirq), t.idle, t.iowait, t.steal, 0)
  }

  function UserChange(before: CpuTime, now: CpuTime): Ulong {
    SubUlong(AddUlong(SubUlong(now.user, before.user), now.nice), before.nice)
  }

  function SystemChange(before: CpuTime, now: CpuTime): Ulong {
    SubUlong(AddUlong(SubUlong(AddUlong(SubUlong(now.system, before.system), now.irq), before.irq), now.softirq), before.softirq)
  }

  function Next(debt: Int, before: CpuTime, now: CpuTime): Shares {
    var (idle, left) := IdleStep(debt, before.idle, now.idle);
    WithRatio(UserChange(before, now), SystemChange(before, now), idle,
              SubUlong(now.iowait, before.iowait), SubUlong(now.steal, before.steal), left)
  }

  /** The body of the loop over the CPUs. */
  method Turn(d: Int, before: CpuTime, now: CpuTime) returns (s: Shares)
    ensures s == Next(d, before, now)
  {
    var duser, dsystem := UserChange(before, now), SystemChange(before, now);
    var didle := SubUlong(now.idle, before.idle);
    var diowait, dsteal := SubUlong(now.iowait, before.iowait), SubUlong(now.steal, before.steal);
    var debt: Int := d;
    if debt != 0 {
      didle := FromInt(AddInt(ToInt(didle), debt));
      debt := 0;
    }
    if ToInt(didle) < 0 {
      debt := ToInt(didle);
      didle := 0;
    }
    var ratio := Ratio(duser, dsystem, didle, diowait, dsteal);
    if ratio == 0 {
      ratio, didle := 1, 1;
    }
    return Shares(duser, dsystem, didle, diowait, dsteal, ratio, debt);
  }

  // ---------------------------------------------------------------------------
  // A run of samples of one CPU
  // ---------------------------------------------------------------------------

  /** The debt after reading `n` of the idle counter. */
  function Debt(idles: seq<Ulong>, n: nat): (debt: Int)
    requires n < |idles|
    ensures debt <= 0
  {
    if n == 0 then 0 else IdleStep(Debt(idles, n - 1), idles[n - 1], idles[n]).1
  }

  /** The sum of the idle times reported up to there, before a zero ratio is made up for. */
  function Reported(idles: seq<Ulong>, n: nat): nat
    requires n < |idles|
  {
    if n == 0 then 0 else Reported(idles, n - 1) + IdleStep(Debt(idles, n - 1), idles[n - 1], idles[n]).0
  }

  /** The highest reading so far. */
  function Peak(idles: seq<Ulong>, n: nat): (p: Ulong)
    requires n < |idles|
    ensures p in idles[..n + 1] && forall i | 0 <= i <= n :: idles[i] <= p
  {
    if n == 0 then idles[0]
    else
      var p := Peak(idles, n - 1);
      if idles[n] > p then idles[n] else p
  }

  /**
   A step that loses nothing, from the highest reading so far and the last one. Without a debt, a
   reading below the peak is at most 2^31 below it, and one above it keeps the low 32 bits of the
   change below 2^31. With a debt, the reading is within 2^31 of the peak.
   */
  predicate Kept(peak: Ulong, before: Ulong, now: Ulong) {
    if before == peak then peak - INT_HALF <= now < peak || (now >= peak && (now - peak) % UINT < INT_HALF)
    else peak - INT_HALF <= now < peak + INT_HALF
  }

  /** Every step up to reading `n` is one that loses nothing. */
  predicate Lossless(idles: seq<Ulong>, n: nat)
    requires n < |idles|
  {
    n == 0 || (Lossless(idles, n - 1) && Kept(Peak(idles, n - 1), idles[n - 1], idles[n]))
  }

  function Idles(times: seq<CpuTime>): (idles: seq<Ulong>)
    ensures |idles| == |times| && forall i | 0 <= i < |times| :: idles[i] == times[i].idle
  {
    seq(|times|, i requires 0 <= i < |times| => times[i].idle)
  }

  /** What the loop holds for a CPU after reading `n`. */
  function After(times: seq<CpuTime>, n: nat): Shares
    requires n < |times|
  {
    if n == 0 then First(times[0]) else Next(Debt(Idles(times), n - 1), times[n - 1], times[n])
  }

  /** One step from a debt of `before - peak`: exactly when nothing is lost, and what is then left. */
  lemma StepExact(debt: Int, peak: Ulong, before: Ulong, now: Ulong)
    requires debt == before - peak <= 0
    ensures var (idle, left) := IdleStep(debt, before, now);
            && (peak + idle + left == now <==> Kept(peak, before, now))
            && (Kept(peak, before, now) ==>
                  if now < peak then idle == 0 && left == now - peak else idle == now - peak && left == 0)
  {}

  /**
   The idle time reported in all is how far the counter's highest reading is above its first, and the
   debt is how far its last reading is below the highest. So nothing is lost, and nothing counted twice.
   */
  lemma {:induction false} IdleIsPeak(idles: seq<Ulong>, n: nat)
    requires n < |idles| && Lossless(idles, n)
    ensures Reported(idles, n) == Peak(idles, n) - idles[0]
    ensures Debt(idles, n) == idles[n] - Peak(idles, n)
  {
    if n > 0 {
      IdleIsPeak(idles, n - 1);
      StepExact(Debt(idles, n - 1), Peak(idles, n - 1), idles[n - 1], idles[n]);
    }
  }

  /** The first reading, what was reported since and the debt make up reading `n`. */
  predicate Accounted(idles: seq<Ulong>, n: nat)
    requires n < |idles|
  {
    idles[0] + Reported(idles, n) + Debt(idles, n) == idles[n]
  }

  lemma AccountedStep(idles: seq<Ulong>, n: nat)
    requires 0 < n < |idles| && Lossless(idles, n - 1)
    ensures Accounted(idles, n) <==> Lossless(idles, n)
  {
    IdleIsPeak(idles, n - 1);
    StepExact(Debt(idles, n - 1), Peak(idles, n - 1), idles[n - 1], idles[n]);
  }

  lemma {:induction false} LosslessAccounts(idles: seq<Ulong>, n: nat, i: nat)
    requires i <= n < |idles| && Lossless(idles, n)
    ensures Accounted(idles, i)
    decreases n
  {
    if i < n {
      LosslessAccounts(idles, n - 1, i);
    } else {
      IdleIsPeak(idles, n);
    }
  }

  lemma {:induction false} AccountedIsLossless(idles: seq<Ulong>, n: nat)
    requires n < |idles| && forall i | 0 <= i <= n :: Accounted(idles, i)
    ensures Lossless(idles, n)
  {
    if n > 0 {
      AccountedIsLossless(idles, n - 1);
      AccountedStep(idles, n);
    }
  }

  /** On every run: all readings are accounted for if and only if every step is one that loses nothing. */
  lemma NothingLostIff(idles: seq<Ulong>, n: nat)
    requires n < |idles|
    ensures (forall i | 0 <= i <= n :: Accounted(idles, i)) <==> Lossless(idles, n)
  {
    if Lossless(idles, n) {
      forall i | 0 <= i <= n
        ensures Accounted(idles, i)
      {
        LosslessAccounts(idles, n, i);
      }
    } else if forall i | 0 <= i <= n :: Accounted(idles, i) {
      AccountedIsLossless(idles, n);
    }
  }

  /** The sum of the change and the debt is one that C leaves undefined. */
  predicate Overflows(debt: Int, before: Ulong, now: Ulong) {
    debt != 0 && !(-INT_HALF <= ToInt(SubUlong(now, before)) + debt < INT_HALF)
  }

  /** While nothing is lost: exactly when there is a debt and the counter makes up for it by 2^31 or more. */
  lemma OverflowExact(idles: seq<Ulong>, n: nat)
    requires 0 < n < |idles| && Lossless(idles, n)
    ensures Overflows(Debt(idles, n - 1), idles[n - 1], idles[n])
       <==> idles[n - 1] < Peak(idles, n - 1) && idles[n] - idles[n - 1] >= INT_HALF
  {
    IdleIsPeak(idles, n - 1);
  }

  /** Whole turns of a 32-bit word. */
  function IntTurns(k: int): int {
    k * UINT
  }

  ghost predicate Congruent(a: int, b: int) {
    exists k :: a == b + IntTurns(k)
  }

  lemma CongruentTrans(a: int, b: int, c: int)
    requires Congruent(a, b) && Congruent(b, c)
    ensures Congruent(a, c)
  {
    var k :| a == b + IntTurns(k);
    var l :| b == c + IntTurns(l);
    assert a == c + IntTurns(k + l);
  }

  lemma CongruentPlus(a: int, b: int, c: int)
    requires Congruent(a, b)
    ensures Congruent(a + c, b + c)
  {
    var k :| a == b + IntTurns(k);
    assert a + c == b + c + IntTurns(k);
  }

  lemma ToIntCongruent(x: Ulong)
    ensures Congruent(ToInt(x), x)
  {
    assert ToInt(x) == x + IntTurns(if x % UINT < INT_HALF then -(x / UINT) else -(x / UINT) - 1);
  }

  lemma ChangeCongruent(before: Ulong, now: Ulong)
    ensures Congruent(SubUlong(now, before) + before, now)
  {
    assert SubUlong(now, before) + before == now + IntTurns(if now >= before then 0 else UINT);
  }

  lemma SumCongruent(a: Int, b: Int)
    ensures Congruent(AddInt(a, b), a + b)
  {
    assert AddInt(a, b) == a + b + IntTurns(if a + b < -INT_HALF then 1 else if a + b >= INT_HALF then -1 else 0);
  }

  lemma SameCongruent(a: int)
    ensures Congruent(a, a)
  {
    assert a == a + IntTurns(0);
  }

  lemma DebtCongruent(debt: Int, change: Ulong)
    ensures Congruent(AddInt(ToInt(change), debt), change + debt)
  {
    SumCongruent(ToInt(change), debt);
    ToIntCongruent(change);
    CongruentPlus(ToInt(change), change, debt);
    CongruentTrans(AddInt(ToInt(change), debt), ToInt(change) + debt, change + debt);
  }

  lemma IdleCongruent(debt: Int, before: Ulong, now: Ulong)
    ensures var (idle, left) := IdleStep(debt, before, now); Congruent(idle + left, SubUlong(now, before) + debt)
  {
    var change := SubUlong(now, before);
    if debt == 0 {
      ToIntCongruent(change);
      SameCongruent(change);
    } else {
      DebtCongruent(debt, change);
    }
  }

  lemma StepCongruent(debt: Int, before: Ulong, now: Ulong)
    ensures var (idle, left) := IdleStep(debt, before, now); Congruent(idle + left + before, now + debt)
  {
    var (idle, left) := IdleStep(debt, before, now);
    var change := SubUlong(now, before);
    IdleCongruent(debt, before, now);
    CongruentPlus(idle + left, change + debt, before);
    ChangeCongruent(before, now);
    CongruentPlus(change + before, now, debt);
    CongruentTrans(idle + left + before, change + before + debt, now + debt);
  }

  /** On every run, whatever the readings: nothing is lost modulo 2^32. */
  lemma {:induction false} IdleModulo(idles: seq<Ulong>, n: nat)
    requires n < |idles|
    ensures Congruent(idles[0] + Reported(idles, n) + Debt(idles, n), idles[n])
  {
    if n == 0 {
      SameCongruent(idles[0]);
    } else {
      var debt, before, now := Debt(idles, n - 1), idles[n - 1], idles[n];
      IdleModulo(idles, n - 1);
      StepCongruent(debt, before, now);
      var (idle, left) := IdleStep(debt, before, now);
      var r := idles[0] + Reported(idles, n - 1);
      CongruentPlus(r + debt, before, idle + left);
      CongruentTrans(r + debt + idle + left, before + idle + left, now + debt);
      CongruentPlus(r + debt + idle + left, now + debt, -(debt as int));
    }
  }

  /** A single idle time of 2^31 ticks is taken for a step backwards, and one of 2^32 is not. */
  lemma TooLongASleep()
    ensures var idles := [0, INT_HALF];
            !Lossless(idles, 1) && Reported(idles, 1) == 0 && Debt(idles, 1) == -INT_HALF
    ensures var idles := [0, UINT];
            Lossless(idles, 1) && Reported(idles, 1) == UINT && Debt(idles, 1) == 0
  {
    assert IdleStep(0, 0, INT_HALF) == (0, -INT_HALF);
    assert IdleStep(0, 0, UINT) == (UINT, 0);
    assert Lossless([0, UINT], 0) && Kept(0, 0, UINT);
  }

  // ---------------------------------------------------------------------------
  // The five parts
  // ---------------------------------------------------------------------------

  /** No counter but the idle one runs backwards. */
  predicate Forwards(before: CpuTime, now: CpuTime) {
    && before.user <= now.user && before.nice <= now.nice
    && before.system <= now.system && before.irq <= now.irq && before.softirq <= now.softirq
    && before.iowait <= now.iowait && before.steal <= now.steal
  }

  function AllTicks(t: CpuTime): int {
    t.user + t.nice + t.system + t.irq + t.softirq + t.idle + t.iowait + t.steal
  }

  /** The counters of sample `i` do not run backwards, and their sum is below 2^63. */
  predicate OrderlyAt(times: seq<CpuTime>, i: nat)
    requires i < |times|
  {
    AllTicks(times[i]) < LONG_HALF && (i > 0 ==> Forwards(times[i - 1], times[i]))
  }

  /** The parts add up to the ratio, which is not zero: their percentages add up to 100. */
  predicate AddsUp(s: Shares) {
    s.user + s.system + s.idle + s.iowait + s.steal == s.ratio > 0
  }

  lemma UserForwards(before: CpuTime, now: CpuTime)
    requires Forwards(before, now) && AllTicks(now) < LONG_HALF
    ensures UserChange(before, now) == now.user - before.user + now.nice - before.nice
  {}

  lemma SystemForwards(before: CpuTime, now: CpuTime)
    requires Forwards(before, now) && AllTicks(now) < LONG_HALF
    ensures SystemChange(before, now) == now.system - before.system + now.irq - before.irq + now.softirq - before.softirq
  {}

  /** The parts add up if and only if they do not wrap, before a zero ratio is made up for. */
  lemma PartsAddUpIff(user: Ulong, system: Ulong, idle: Ulong, iowait: Ulong, steal: Ulong, debt: Int)
    ensures AddsUp(WithRatio(user, system, idle, iowait, steal, debt)) <==> user + system + idle + iowait + steal < ULONG
  {
    var r1 := AddUlong(user, system);
    var r2 := AddUlong(r1, idle);
    var r3 := AddUlong(r2, iowait);
    var ratio := AddUlong(r3, steal);
    assert ratio == Ratio(user, system, idle, iowait, steal);
    assert ratio <= user + system + idle + iowait + steal;
    assert user + system + idle + iowait + steal < ULONG ==> ratio == user + system + idle + iowait + steal;
  }

  lemma PartsAddUp(user: Ulong, system: Ulong, idle: Ulong, iowait: Ulong, steal: Ulong, debt: Int)
    requires user + system + idle + iowait + steal < ULONG
    ensures var s := WithRatio(user, system, idle, iowait, steal, debt);
            AddsUp(s) && s.user == user && s.system == system && s.iowait == iowait && s.steal == steal
    ensures user + system + idle + iowait + steal > 0 ==> WithRatio(user, system, idle, iowait, steal, debt).idle == idle
  {
    PartsAddUpIff(user, system, idle, iowait, steal, debt);
    assert Ratio(user, system, idle, iowait, steal) == user + system + idle + iowait + steal;
  }

  // What changed from one reading to the next, or up to the first, as an unsigned long.

  function UserTicks(times: seq<CpuTime>, n: nat): Ulong
    requires n < |times|
  {
    SubUlong(UserTime(times[n]), if n == 0 then 0 else UserTime(times[n - 1]))
  }

  function UserTime(t: CpuTime): Ulong {
    AddUlong(t.user, t.nice)
  }

  function SystemTicks(times: seq<CpuTime>, n: nat): Ulong
    requires n < |times|
  {
    SubUlong(SystemTime(times[n]), if n == 0 then 0 else SystemTime(times[n - 1]))
  }

  function SystemTime(t: CpuTime): Ulong {
    AddUlong(AddUlong(t.system, t.irq), t.softirq)
  }

  function IowaitTicks(times: seq<CpuTime>, n: nat): Ulong
    requires n < |times|
  {
    SubUlong(times[n].iowait, if n == 0 then 0 else times[n - 1].iowait)
  }

  function StealTicks(times: seq<CpuTime>, n: nat): Ulong
    requires n < |times|
  {
    SubUlong(times[n].steal, if n == 0 then 0 else times[n - 1].steal)
  }

  /** The idle time up to the first reading, and then what is reported. */
  function IdleTicks(times: seq<CpuTime>, n: nat): Ulong
    requires n < |times|
  {
    if n == 0 then times[0].idle
    else Reported(Idles(times), n) - Reported(Idles(times), n - 1)
  }

  /** The sum of the five parts of reading `n`, before a zero ratio is made up for. */
  function PartsOf(times: seq<CpuTime>, n: nat): nat
    requires n < |times|
  {
    UserTicks(times, n) + SystemTicks(times, n) + IdleTicks(times, n) + IowaitTicks(times, n) + StealTicks(times, n)
  }

  lemma ModIs(x: int, r: Ulong, k: int)
    requires x == r + k * ULONG
    ensures x % ULONG == r
  {}

  /** The change of a sum, one term after the other. */
  lemma ChangeOfSum(a: Ulong, b: Ulong, c: Ulong, d: Ulong)
    ensures SubUlong(AddUlong(a, c), AddUlong(b, d)) == SubUlong(AddUlong(SubUlong(a, b), c), d)
  {}

  lemma UserChangeIs(before: CpuTime, now: CpuTime)
    ensures UserChange(before, now) == SubUlong(UserTime(now), UserTime(before))
  {
    ChangeOfSum(now.user, before.user, now.nice, before.nice);
  }

  lemma SystemChangeIs(before: CpuTime, now: CpuTime)
    ensures SystemChange(before, now) == SubUlong(SystemTime(now), SystemTime(before))
  {
    ChangeOfSum(now.system, before.system, now.irq, before.irq);
    ChangeOfSum(AddUlong(now.system, now.irq), AddUlong(before.system, before.irq), now.softirq, before.softirq);
  }

  lemma RatioIs(user: Ulong, system: Ulong, idle: Ulong, iowait: Ulong, steal: Ulong)
    ensures Ratio(user, system, idle, iowait, steal) == (user + system + idle + iowait + steal) % ULONG
  {
    var r1 := AddUlong(user, system);
    var r2 := AddUlong(r1, idle);
    var r3 := AddUlong(r2, iowait);
    var k1 := if user + system < ULONG then 0 else 1;
    var k2 := if r1 + idle < ULONG then 0 else 1;
    var k3 := if r2 + iowait < ULONG then 0 else 1;
    var k4 := if r3 + steal < ULONG then 0 else 1;
    ModIs(user + system + idle + iowait + steal, AddUlong(r3, steal), k1 + k2 + k3 + k4);
  }

  lemma IdleTicksIs(times: seq<CpuTime>, n: nat)
    requires 0 < n < |times|
    ensures IdleTicks(times, n) == IdleStep(Debt(Idles(times), n - 1), times[n - 1].idle, times[n].idle).0
  {}

  /** What the loop holds for a CPU after reading `n`, by its readings. */
  lemma AfterIs(times: seq<CpuTime>, n: nat) returns (debt: Int)
    requires n < |times|
    ensures After(times, n) == WithRatio(UserTicks(times, n), SystemTicks(times, n), IdleTicks(times, n),
                                         IowaitTicks(times, n), StealTicks(times, n), debt)
  {
    if n == 0 {
      debt := 0;
    } else {
      var before, now := times[n - 1], times[n];
      debt := IdleStep(Debt(Idles(times), n - 1), before.idle, now.idle).1;
      IdleTicksIs(times, n);
      UserChangeIs(before, now);
      SystemChangeIs(before, now);
    }
  }

  /** On every run, whatever the counters do: the parts add up to the ratio if and only if they sum below 2^64. */
  lemma AfterAddsUpIff(times: seq<CpuTime>, n: nat)
    requires n < |times|
    ensures AddsUp(After(times, n)) <==> PartsOf(times, n) < ULONG
  {
    var debt := AfterIs(times, n);
    PartsAddUpIff(UserTicks(times, n), SystemTicks(times, n), IdleTicks(times, n),
                  IowaitTicks(times, n), StealTicks(times, n), debt);
  }

  /** One sample: the parts are the changes of the counters, and all of them add up. */
  lemma NextAddsUp(debt: Int, peak: Ulong, before: CpuTime, now: CpuTime)
    requires Forwards(before, now) && AllTicks(now) < LONG_HALF
    requires debt == before.idle - peak <= 0 && Kept(peak, before.idle, now.idle)
    ensures var s := Next(debt, before, now);
            && AddsUp(s)
            && s.user == now.user - before.user + now.nice - before.nice
            && s.system == now.system - before.system + now.irq - before.irq + now.softirq - before.softirq
            && s.iowait == now.iowait - before.iowait && s.steal == now.steal - before.steal
  {
    StepExact(debt, peak, before.idle, now.idle);
    UserForwards(before, now);
    SystemForwards(before, now);
    var (idle, left) := IdleStep(debt, before.idle, now.idle);
    PartsAddUp(UserChange(before, now), SystemChange(before, now), idle,
               SubUlong(now.iowait, before.iowait), SubUlong(now.steal, before.steal), left);
  }

  /** The first sample stands for the time since the start of the system. */
  lemma FirstAddsUp(t: CpuTime)
    requires AllTicks(t) < LONG_HALF
    ensures var s := First(t);
            && AddsUp(s) && s.debt == 0
            && s.user == t.user + t.nice && s.system == t.system + t.irq + t.softirq
            && s.iowait == t.iowait && s.steal == t.steal && (AllTicks(t) > 0 ==> s.idle == t.idle)
  {
    PartsAddUp(AddUlong(t.user, t.nice), AddUlong(AddUlong(t.system, t.irq), t.softirq), t.idle, t.iowait, t.steal, 0);
  }

  /** After any run of samples that lose nothing, with counters that do not run backwards. */
  lemma AfterAddsUp(times: seq<CpuTime>, n: nat)
    requires n < |times| && Lossless(Idles(times), n) && OrderlyAt(times, n)
    ensures AddsUp(After(times, n))
  {
    if n == 0 {
      FirstAddsUp(times[0]);
    } else {
      IdleIsPeak(Idles(times), n - 1);
      NextAddsUp(Debt(Idles(times), n - 1), Peak(Idles(times), n - 1), times[n - 1], times[n]);
    }
  }

  function Percent(part: Ulong, s: Shares): real
    requires s.ratio != 0
  {
    100.0 * part as real / s.ratio as real
  }

  lemma PercentsAddUp(s: Shares)
    requires AddsUp(s)
    ensures 100.0 * s.user as real / s.ratio as real + 100.0 * s.system as real / s.ratio as real
            + 100.0 * s.idle as real / s.ratio as real + 100.0 * s.iowait as real / s.ratio as real
            + 100.0 * s.steal as real / s.ratio as real == 100.0
  {}

  /** The percentage that the thresholds are about: user time, or time spent waiting. */
  function Measured(s: Shares, iowait: bool): real
    requires s.ratio != 0
  {
    Percent(if iowait then s.iowait else s.user, s)
  }

  /** The percentage of a part in a sum as 64 bits hold it, where nothing counts as one. */
  function PercentOf(part: nat, all: nat): real {
    100.0 * part as real / (if all % ULONG == 0 then 1 else all % ULONG) as real
  }

  /**
   The same from the readings: of all that changed with reading `n`, the part that is waiting, or that
   is user and nice time.
   */
  function Usage(times: seq<CpuTime>, n: nat, iowait: bool): real
    requires n < |times|
  {
    PercentOf(if iowait then IowaitTicks(times, n) else UserTicks(times, n), PartsOf(times, n))
  }

  lemma MeasuredIsUsage(times: seq<CpuTime>, n: nat, iowait: bool)
    requires n < |times|
    ensures After(times, n).ratio != 0 && Measured(After(times, n), iowait) == Usage(times, n, iowait)
  {
    var debt := AfterIs(times, n);
    MeasuredIsPercent(UserTicks(times, n), SystemTicks(times, n), IdleTicks(times, n),
                      IowaitTicks(times, n), StealTicks(times, n), debt, iowait);
  }

  lemma MeasuredIsPercent(user: Ulong, system: Ulong, idle: Ulong, iowait: Ulong, steal: Ulong, debt: Int, waiting: bool)
    ensures Measured(WithRatio(user, system, idle, iowait, steal, debt), waiting)
         == PercentOf(if waiting then iowait else user, user + system + idle + iowait + steal)
  {
    RatioIs(user, system, idle, iowait, steal);
  }

  lemma UsageIs(times: seq<CpuTime>, n: nat, iowait: bool, part: nat, all: nat)
    requires n < |times| && 0 < all < ULONG && PartsOf(times, n) == all
    requires part == if iowait then IowaitTicks(times, n) else UserTicks(times, n)
    ensures Usage(times, n, iowait) == 100.0 * part as real / all as real
  {
    PercentOfSmall(part, all);
    assert Usage(times, n, iowait) == PercentOf(part, all);
  }

  lemma PercentOfSmall(part: nat, all: nat)
    requires 0 < all < ULONG
    ensures PercentOf(part, all) == 100.0 * part as real / all as real
  {}

  lemma ForwardsTicks(times: seq<CpuTime>, n: nat)
    requires 0 < n < |times| && OrderlyAt(times, n)
    ensures var before, now := times[n - 1], times[n];
            && UserTicks(times, n) == now.user - before.user + now.nice - before.nice
            && SystemTicks(times, n) == now.system - before.system + now.irq - before.irq + now.softirq - before.softirq
            && IowaitTicks(times, n) == now.iowait - before.iowait && StealTicks(times, n) == now.steal - before.steal
  {}

  lemma {:induction false} LosslessBefore(idles: seq<Ulong>, m: nat, n: nat)
    requires m <= n < |idles| && Lossless(idles, n)
    ensures Lossless(idles, m)
    decreases n
  {
    if m < n {
      LosslessBefore(idles, m, n - 1);
    }
  }

  lemma ReportedBetween(idles: seq<Ulong>, m: nat, n: nat)
    requires m <= n < |idles| && Lossless(idles, n)
    ensures Reported(idles, n) - Reported(idles, m) == Peak(idles, n) - Peak(idles, m)
  {
    LosslessBefore(idles, m, n);
    IdleIsPeak(idles, n);
    IdleIsPeak(idles, m);
  }

  lemma OrderlyIdle(times: seq<CpuTime>, n: nat)
    requires 0 < n < |times| && Lossless(Idles(times), n)
    ensures IdleTicks(times, n) == Peak(Idles(times), n) - Peak(Idles(times), n - 1)
  {
    ReportedBetween(Idles(times), n - 1, n);
  }

  lemma TicksAddUp(user: int, system: int, iowait: int, steal: int, before: CpuTime, now: CpuTime)
    requires user == now.user - before.user + now.nice - before.nice
    requires system == now.system - before.system + now.irq - before.irq + now.softirq - before.softirq
    requires iowait == now.iowait - before.iowait && steal == now.steal - before.steal
    ensures user + system + iowait + steal == AllTicks(now) - now.idle - (AllTicks(before) - before.idle)
  {}

  /** The sum of the parts: the idle time is how far the highest reading has moved. */
  lemma OrderlyParts(times: seq<CpuTime>, n: nat)
    requires 0 < n < |times| && Lossless(Idles(times), n) && OrderlyAt(times, n)
    ensures var idle := Peak(Idles(times), n) - Peak(Idles(times), n - 1);
            PartsOf(times, n) == AllTicks(times[n]) - times[n].idle - (AllTicks(times[n - 1]) - times[n - 1].idle) + idle
  {
    ForwardsTicks(times, n);
    OrderlyIdle(times, n);
    TicksAddUp(UserTicks(times, n), SystemTicks(times, n), IowaitTicks(times, n), StealTicks(times, n), times[n - 1], times[n]);
  }

  lemma SmallParts(times: seq<CpuTime>, n: nat)
    requires 0 < n < |times| && Lossless(Idles(times), n) && OrderlyAt(times, n)
    ensures PartsOf(times, n) < ULONG
  {
    AfterAddsUp(times, n);
    AfterAddsUpIff(times, n);
  }

  /**
   A sample of a run that loses nothing, with counters that do not run backwards and something to
   share out: no wrap-around is left in the percentage.
   */
  lemma UsageOrderly(times: seq<CpuTime>, n: nat, iowait: bool, part: int, all: int)
    requires 0 < n < |times| && Lossless(Idles(times), n) && OrderlyAt(times, n)
    requires var before, now := times[n - 1], times[n];
             && part == (if iowait then now.iowait - before.iowait else now.user - before.user + now.nice - before.nice)
             && all == AllTicks(now) - now.idle - (AllTicks(before) - before.idle)
                       + Peak(Idles(times), n) - Peak(Idles(times), n - 1)
    requires all > 0
    ensures Usage(times, n, iowait) == 100.0 * part as real / all as real
  {
    OrderlyParts(times, n);
    SmallParts(times, n);
    ForwardsTicks(times, n);
    UsageIs(times, n, iowait, part, all);
  }

  // ---------------------------------------------------------------------------
  // All the CPUs
  // ---------------------------------------------------------------------------

  /** The readings of one CPU, in order. */
  function Column(samples: seq<seq<CpuTime>>, c: nat): (times: seq<CpuTime>)
    requires forall i | 0 <= i < |samples| :: c < |samples[i]|
    ensures |times| == |samples|
  {
    seq(|samples|, i requires 0 <= i < |samples| => samples[i][c])
  }

  /** The debt and the idle time of a sample, but for the ratio that is made up. */
  lemma NextDebt(debt: Int, before: CpuTime, now: CpuTime)
    ensures var (idle, left) := IdleStep(debt, before.idle, now.idle);
            var s := Next(debt, before, now);
            s.debt == left && (s.idle == idle || s.idle == s.ratio == 1)
  {}

  lemma DebtAfter(times: seq<CpuTime>, n: nat)
    requires n < |times|
    ensures After(times, n).debt == Debt(Idles(times), n) && After(times, n).ratio != 0
  {
    if n > 0 {
      NextDebt(Debt(Idles(times), n - 1), times[n - 1], times[n]);
    }
  }

  /** After reading `n`, each CPU holds what its own readings lead to. */
  ghost predicate Holds(samples: seq<seq<CpuTime>>, ncpus: nat, n: nat, shares: seq<Shares>)
    requires n < |samples| && forall j | 0 <= j < |samples| :: |samples[j]| == ncpus
  {
    |shares| == ncpus && forall c | 0 <= c < ncpus :: shares[c] == After(Column(samples, c), n)
  }

  lemma HoldsNext(samples: seq<seq<CpuTime>>, ncpus: nat, n: nat, before: seq<Shares>, after: seq<Shares>)
    requires 0 < n < |samples| && forall j | 0 <= j < |samples| :: |samples[j]| == ncpus
    requires Holds(samples, ncpus, n - 1, before) && |after| == ncpus
    requires forall c | 0 <= c < ncpus :: after[c] == Next(before[c].debt, samples[n - 1][c], samples[n][c])
    ensures Holds(samples, ncpus, n, after)
  {
    forall c | 0 <= c < ncpus
      ensures after[c] == After(Column(samples, c), n)
    {
      CpuNext(Column(samples, c), n, before[c], after[c]);
    }
  }

  lemma CpuNext(times: seq<CpuTime>, n: nat, before: Shares, after: Shares)
    requires 0 < n < |times| && before == After(times, n - 1) && after == Next(before.debt, times[n - 1], times[n])
    ensures after == After(times, n)
  {
    DebtAfter(times, n - 1);
  }

  lemma HoldsRatio(samples: seq<seq<CpuTime>>, ncpus: nat, n: nat, shares: seq<Shares>)
    requires n < |samples| && forall j | 0 <= j < |samples| :: |samples[j]| == ncpus
    requires Holds(samples, ncpus, n, shares)
    ensures forall c | 0 <= c < ncpus :: shares[c].ratio != 0
  {
    forall c | 0 <= c < ncpus
      ensures shares[c].ratio != 0
    {
      DebtAfter(Column(samples, c), n);
    }
  }

  /** The sampling loops of check_cpu. Two buffers take turns for the current and the previous sample. */
  method Collect(samples: seq<seq<CpuTime>>, ncpus: nat) returns (shares: array<Shares>)
    requires samples != [] && forall i | 0 <= i < |samples| :: |samples[i]| == ncpus
    ensures fresh(shares) && Holds(samples, ncpus, |samples| - 1, shares[..])
  {
    var cpuv := new seq<CpuTime>[2](_ => samples[0]);
    var tog := 0;
    shares := FirstShares(samples, ncpus);
    for i := 1 to |samples|
      invariant tog in {0, 1} && cpuv[tog] == samples[i - 1]
      invariant Holds(samples, ncpus, i - 1, shares[..])
    {
      tog := 1 - tog;
      cpuv[tog] := samples[i];
      Round(samples, ncpus, i, cpuv[1 - tog], cpuv[tog], shares);
    }
  }

  /**
   check_cpu, on the samples that the kernel gives: the status is the worst of any CPU, by its share of
   the time between its last two readings (or up to the only one).
   */
  method CheckCpu(samples: seq<seq<CpuTime>>, ncpus: nat, iowait: bool, t: Thresholds)
      returns (shares: array<Shares>, status: int)
    requires samples != [] && forall i | 0 <= i < |samples| :: |samples[i]| == ncpus
    ensures Holds(samples, ncpus, |samples| - 1, shares[..])
    ensures IsWorst(Statuses(samples, ncpus, iowait, t), status)
  {
    shares := Collect(samples, ncpus);
    HoldsRatio(samples, ncpus, |samples| - 1, shares[..]);
    status := Worst(shares, iowait, t);
    StatusesHeld(samples, ncpus, shares[..], iowait, t);
  }

  /** The statuses of the CPUs, by their readings. */
  ghost function Statuses(samples: seq<seq<CpuTime>>, ncpus: nat, iowait: bool, t: Thresholds): (statuses: seq<int>)
    requires samples != [] && forall i | 0 <= i < |samples| :: |samples[i]| == ncpus
    ensures |statuses| == ncpus
    ensures forall c | 0 <= c < ncpus :: statuses[c] == StatusOf(Column(samples, c), iowait, t)
  {
    seq(ncpus, c requires 0 <= c < ncpus => StatusOf(Column(samples, c), iowait, t))
  }

  /** The status of a CPU after its last reading. */
  ghost function StatusOf(times: seq<CpuTime>, iowait: bool, t: Thresholds): int
    requires times != []
  {
    GetStatus(Usage(times, |times| - 1, iowait), t)
  }

  /** `status` is the status of some CPU, or OK, and no CPU has a worse one. */
  ghost predicate IsWorst(statuses: seq<int>, status: int) {
    && (forall c | 0 <= c < |statuses| :: statuses[c] <= status)
    && (status == 0 || status in statuses)
  }

  /** The same statuses, by what the loop holds. */
  ghost function HeldStatuses(shares: seq<Shares>, iowait: bool, t: Thresholds): (statuses: seq<int>)
    requires forall c | 0 <= c < |shares| :: shares[c].ratio != 0
    ensures |statuses| == |shares|
    ensures forall c | 0 <= c < |shares| :: statuses[c] == GetStatus(Measured(shares[c], iowait), t)
  {
    seq(|shares|, c requires 0 <= c < |shares| => GetStatus(Measured(shares[c], iowait), t))
  }

  lemma HeldStatus(times: seq<CpuTime>, s: Shares, iowait: bool, t: Thresholds)
    requires times != [] && s == After(times, |times| - 1)
    ensures s.ratio != 0 && GetStatus(Measured(s, iowait), t) == StatusOf(times, iowait, t)
  {
    MeasuredIsUsage(times, |times| - 1, iowait);
  }

  lemma StatusesHeld(samples: seq<seq<CpuTime>>, ncpus: nat, shares: seq<Shares>, iowait: bool, t: Thresholds)
    requires samples != [] && forall i | 0 <= i < |samples| :: |samples[i]| == ncpus
    requires Holds(samples, ncpus, |samples| - 1, shares)
    requires forall c | 0 <= c < |shares| :: shares[c].ratio != 0
    ensures HeldStatuses(shares, iowait, t) == Statuses(samples, ncpus, iowait, t)
  {
    var held, statuses := HeldStatuses(shares, iowait, t), Statuses(samples, ncpus, iowait, t);
    forall c | 0 <= c < ncpus
      ensures held[c] == statuses[c]
    {
      HeldStatus(Column(samples, c), shares[c], iowait, t);
    }
  }

  /** The worst status of any CPU. */
  method Worst(shares: array<Shares>, iowait: bool, t: Thresholds) returns (status: int)
    requires forall c | 0 <= c < shares.Length :: shares[c].ratio != 0
    ensures IsWorst(HeldStatuses(shares[..], iowait, t), status)
  {
    status := STATE_OK;
    ghost var statuses := HeldStatuses(shares[..], iowait, t);
    for c := 0 to shares.Length
      invariant IsWorst(statuses[..c], status)
    {
      var current := GetStatus(Measured(shares[c], iowait), t);
      WorstAppend(statuses[..c], current, status);
      assert statuses[..c + 1] == statuses[..c] + [current];
      if current > status {
        status := current;
      }
    }
    assert statuses[..shares.Length] == statuses;
  }

  lemma WorstAppend(statuses: seq<int>, current: int, status: int)
    requires IsWorst(statuses, status)
    ensures IsWorst(statuses + [current], if current > status then current else status)
  {
    assert (statuses + [current])[|statuses|] == current;
    if current <= status && status != 0 {
      var c :| 0 <= c < |statuses| && statuses[c] == status;
      assert (statuses + [current])[c] == status;
    }
  }

  method FirstShares(samples: seq<seq<CpuTime>>, ncpus: nat) returns (shares: array<Shares>)
    requires samples != [] && forall i | 0 <= i < |samples| :: |samples[i]| == ncpus
    ensures fresh(shares) && shares.Length == ncpus
    ensures Holds(samples, ncpus, 0, shares[..])
  {
    shares := new Shares[ncpus](_ => Shares(0, 0, 1, 0, 0, 1, 0));
    for c := 0 to ncpus
      invariant forall k | 0 <= k < c :: shares[k] == After(Column(samples, k), 0)
    {
      shares[c] := First(samples[0][c]);
    }
  }

  /** One turn of the outer loop, for all the CPUs. */
  method Round(ghost samples: seq<seq<CpuTime>>, ncpus: nat, ghost n: nat, before: seq<CpuTime>, now: seq<CpuTime>,
               shares: array<Shares>)
    requires 0 < n < |samples| && forall j | 0 <= j < |samples| :: |samples[j]| == ncpus
    requires before == samples[n - 1] && now == samples[n]
    requires Holds(samples, ncpus, n - 1, shares[..])
    modifies shares
    ensures Holds(samples, ncpus, n, shares[..])
  {
    ghost var was := shares[..];
    NextShares(ncpus, before, now, shares);
    HoldsNext(samples, ncpus, n, was, shares[..]);
  }

  method NextShares(ncpus: nat, before: seq<CpuTime>, now: seq<CpuTime>, shares: array<Shares>)
    requires |before| == |now| == shares.Length == ncpus
    modifies shares
    ensures forall c | 0 <= c < ncpus :: shares[c] == Next(old(shares[c].debt), before[c], now[c])
  {
    for c := 0 to ncpus
      invariant forall k | 0 <= k < c :: shares[k] == Next(old(shares[k].debt), before[k], now[k])
      invariant forall k | c <= k < ncpus :: shares[k] == old(shares[k])
    {
      var s := Turn(shares[c].debt, before[c], now[c]);
      shares[c] := s;
    }
  }
}
