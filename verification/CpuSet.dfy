/**
 A set of CPUs as an array of 64-bit words: the fallback macros of include/cputopology.h, and the
 population count of lib/cputopology.c.
 */
module CpuSet {

  // ---------------------------------------------------------------------------
  // Bits of a word
  // ---------------------------------------------------------------------------

  /** Bit `p` of a word. */
  predicate Bit(w: bv64, p: bv7) {
    p < 64 && (w >> p) & 1 == 1
  }

  /** What CPU_SET_S does to one word. */
  lemma OrBit(w: bv64, a: bv7, b: bv7)
    requires a < 64 && b < 64
    ensures Bit(w | ((1 as bv64) << b), a) == (Bit(w, a) || a == b)
  {}

  /** The number `i` as a position in a word. */
  function ToBv(i: nat): bv7 {
    if i == 0 then 0 else ToBv(i - 1) + 1
  }

  lemma IncNat(a: bv7)
    requires a as nat < 127
    ensures (a + 1) as nat == a as nat + 1
  {}

  lemma {:induction false} ToBvNat(i: nat)
    requires i < 128
    ensures ToBv(i) as nat == i
  {
    if i != 0 {
      ToBvNat(i - 1);
      IncNat(ToBv(i - 1));
    }
  }

  lemma LessNat(b: bv7)
    requires b as nat < 64
    ensures b < 64
  {}

  lemma ToBvBelow(i: nat)
    requires i < 64
    ensures ToBv(i) < 64
  {
    ToBvNat(i);
    LessNat(ToBv(i));
  }

  lemma ToBvInjective(i: nat, k: nat)
    requires i < 64 && k < 64 && ToBv(i) == ToBv(k)
    ensures i == k
  {
    ToBvNat(i);
    ToBvNat(k);
  }

  // ---------------------------------------------------------------------------
  // The set
  // ---------------------------------------------------------------------------

  predicate InSet(words: seq<bv64>, cpu: nat) {
    cpu / 64 < |words| && Bit(words[cpu / 64], ToBv(cpu % 64))
  }

  /** CPU_ZERO_S */
  method ZeroS(set_: array<bv64>)
    modifies set_
    ensures forall i | 0 <= i < set_.Length :: set_[i] == 0
    ensures forall cpu: nat :: !InSet(set_[..], cpu)
  {
    for i := 0 to set_.Length
      invariant forall j | 0 <= j < i :: set_[j] == 0
    {
      set_[i] := 0;
    }
    forall cpu: nat
      ensures !InSet(set_[..], cpu)
    {
      ZeroBit(ToBv(cpu % 64));
    }
  }

  lemma ZeroBit(p: bv7)
    ensures !Bit(0, p)
  {}

  /** A word with one more bit. */
  function WithBit(w: bv64, p: bv7): (r: bv64)
    requires p < 64
    ensures forall a: bv7 :: Bit(r, a) == (Bit(w, a) || a == p)
  {
    forall a: bv7
      ensures Bit(w | ((1 as bv64) << p), a) == (Bit(w, a) || a == p)
    {
      if a < 64 {
        OrBit(w, a, p);
      }
    }
    w | ((1 as bv64) << p)
  }

  lemma SameCpu(c: nat, cpu: nat)
    ensures c / 64 == cpu / 64 && ToBv(c % 64) == ToBv(cpu % 64) <==> c == cpu
    ensures ToBv(c % 64) < 64 && ToBv(cpu % 64) < 64
  {
    var i, k := c % 64, cpu % 64;
    ToBvBelow(i);
    ToBvBelow(k);
    if ToBv(i) == ToBv(k) {
      ToBvInjective(i, k);
    }
  }

  /** CPU_SET_S: a CPU beyond the set is ignored. */
  method SetS(cpu: nat, set_: array<bv64>)
    modifies set_
    ensures forall c: nat :: InSet(set_[..], c) == (InSet(old(set_[..]), c) || (c == cpu && cpu < 64 * set_.Length))
  {
    if cpu < 64 * set_.Length {
      ghost var before := set_[..];
      var w, p := cpu / 64, ToBv(cpu % 64);
      SameCpu(cpu, cpu);
      set_[w] := WithBit(set_[w], p);
      assert set_[..] == before[w := WithBit(before[w], p)];
      forall c: nat
        ensures InSet(set_[..], c) == (InSet(before, c) || c == cpu)
      {
        SameCpu(c, cpu);
      }
    }
  }

  // ---------------------------------------------------------------------------
  // The population count
  // ---------------------------------------------------------------------------

  function Stage1(l: bv64): bv64 {
    (l & 0x5555555555555555) + ((l >> 1) & 0x5555555555555555)
  }

  function Stage2(l: bv64): bv64 {
    (l & 0x3333333333333333) + ((l >> 2) & 0x3333333333333333)
  }

  function Stage3(l: bv64): bv64 {
    (l & 0x0f0f0f0f0f0f0f0f) + ((l >> 4) & 0x0f0f0f0f0f0f0f0f)
  }

  function Stage4(l: bv64): bv64 {
    (l & 0x00ff00ff00ff00ff) + ((l >> 8) & 0x00ff00ff00ff00ff)
  }

  function Stage5(l: bv64): bv64 {
    (l & 0x0000ffff0000ffff) + ((l >> 16) & 0x0000ffff0000ffff)
  }

  function Stage6(l: bv64): bv64 {
    (l & 0x00000000ffffffff) + ((l >> 32) & 0x00000000ffffffff)
  }

  /** The bit-parallel count of a 64-bit word: the ladder for LONG_BIT > 32. */
  function Ladder64(l: bv64): bv64 {
    Stage6(Stage5(Stage4(Stage3(Stage2(Stage1(l))))))
  }

  /** The number that a field of at most seven bits stands for. */
  function Value(x: bv64): nat {
    if x <= 127 then (x as bv7) as nat else 0
  }

  lemma AddSeven(a: bv7, b: bv7)
    requires a <= 48 && b <= 48
    ensures (a + b) as nat == a as nat + b as nat
  {
    assert a + b <= 96;
  }

  lemma NarrowSum(x: bv64, y: bv64)
    requires x <= 48 && y <= 48
    ensures x + y <= 96 && (x + y) as bv7 == (x as bv7) + (y as bv7)
  {}

  /** The sums of fields in the ladder never overflow their field. */
  lemma AddValues(x: bv64, y: bv64)
    requires x <= 48 && y <= 48
    ensures Value(x + y) == Value(x) + Value(y)
  {
    NarrowSum(x, y);
    AddSeven(x as bv7, y as bv7);
  }

  /** The number of one bits among the lowest `n` of a word; below, the sums of its lowest fields. */
  function BitSum(w: bv64, n: nat): nat
    decreases n
  {
    if n == 0 then 0 else Value(w & 1) + BitSum(w >> 1, n - 1)
  }

  function PairSum(w: bv64, n: nat): nat
    decreases n
  {
    if n == 0 then 0 else Value(w & 3) + PairSum(w >> 2, n - 1)
  }

  function NibbleSum(w: bv64, n: nat): nat
    decreases n
  {
    if n == 0 then 0 else Value(w & 15) + NibbleSum(w >> 4, n - 1)
  }

  function ByteSum(w: bv64, n: nat): nat
    decreases n
  {
    if n == 0 then 0 else Value(w & 255) + ByteSum(w >> 8, n - 1)
  }

  function ShortSum(w: bv64, n: nat): nat
    decreases n
  {
    if n == 0 then 0 else Value(w & 0xffff) + ShortSum(w >> 16, n - 1)
  }

  lemma Shift1(l: bv64)
    ensures Stage1(l) & 3 == (l & 1) + ((l >> 1) & 1) && Stage1(l) >> 2 == Stage1(l >> 2)
  {}

  lemma Shift2(l: bv64)
    ensures Stage2(l) & 15 == (l & 3) + ((l >> 2) & 3) && Stage2(l) >> 4 == Stage2((l >> 2) >> 2)
  {}

  lemma Shift3(l: bv64)
    ensures Stage3(l) & 255 == (l & 15) + ((l >> 4) & 15) && Stage3(l) >> 8 == Stage3((l >> 4) >> 4)
  {}

  lemma Shift4(l: bv64)
    ensures Stage4(l) & 0xffff == (l & 255) + ((l >> 8) & 255) && Stage4(l) >> 16 == Stage4((l >> 8) >> 8)
  {}

  lemma Step1(l: bv64)
    ensures Value(Stage1(l) & 3) == Value(l & 1) + Value((l >> 1) & 1)
    ensures Stage1(l) >> 2 == Stage1(l >> 2)
  {
    Shift1(l);
    AddValues(l & 1, (l >> 1) & 1);
  }

  lemma Step2(l: bv64)
    ensures Value(Stage2(l) & 15) == Value(l & 3) + Value((l >> 2) & 3)
    ensures Stage2(l) >> 4 == Stage2((l >> 2) >> 2)
  {
    Shift2(l);
    AddValues(l & 3, (l >> 2) & 3);
  }

  lemma Step3(l: bv64)
    ensures Value(Stage3(l) & 255) == Value(l & 15) + Value((l >> 4) & 15)
    ensures Stage3(l) >> 8 == Stage3((l >> 4) >> 4)
  {
    Shift3(l);
    AddValues(l & 15, (l >> 4) & 15);
  }

  lemma TwoBits(l: bv64, n: nat)
    ensures BitSum(l, n + 2) == Value(l & 1) + Value((l >> 1) & 1) + BitSum(l >> 2, n)
  {}

  lemma TwoPairs(l: bv64, n: nat)
    ensures PairSum(l, n + 2) == Value(l & 3) + Value((l >> 2) & 3) + PairSum((l >> 2) >> 2, n)
  {}

  lemma TwoNibbles(l: bv64, n: nat)
    ensures NibbleSum(l, n + 2) == Value(l & 15) + Value((l >> 4) & 15) + NibbleSum((l >> 4) >> 4, n)
  {}

  lemma {:induction false} Sum1(l: bv64, n: nat)
    ensures PairSum(Stage1(l), n) == BitSum(l, n + n)
    decreases n
  {
    if n != 0 {
      Step1(l);
      Sum1(l >> 2, n - 1);
      TwoBits(l, n + n - 2);
    }
  }

  lemma {:induction false} Sum2(l: bv64, n: nat)
    ensures NibbleSum(Stage2(l), n) == PairSum(l, n + n)
    decreases n
  {
    if n != 0 {
      Step2(l);
      Sum2((l >> 2) >> 2, n - 1);
      TwoPairs(l, n + n - 2);
    }
  }

  lemma {:induction false} Sum3(l: bv64, n: nat)
    ensures ByteSum(Stage3(l), n) == NibbleSum(l, n + n)
    decreases n
  {
    if n != 0 {
      Step3(l);
      Sum3((l >> 4) >> 4, n - 1);
      TwoNibbles(l, n + n - 2);
    }
  }

  /** The bytes that the third stage leaves are small, so that their sums fit a byte as well. */
  lemma Bounds3(s: bv64)
    ensures Stage3(Stage2(s)) & 255 <= 12 && (Stage3(Stage2(s)) >> 8) & 255 <= 12
  {}

  lemma Shifted2(s: bv64)
    ensures Stage2(s) >> 16 == Stage2(s >> 16)
  {}

  lemma Shifted3(s: bv64)
    ensures Stage3(s) >> 16 == Stage3(s >> 16)
  {}

  lemma Shifted23(s: bv64)
    ensures Stage3(Stage2(s)) >> 16 == Stage3(Stage2(s >> 16))
  {
    Shifted2(s);
    Shifted3(Stage2(s));
  }

  ghost predicate SmallBytes(u: bv64, n: nat)
    decreases n
  {
    n == 0 || (u & 255 <= 12 && (u >> 8) & 255 <= 12 && SmallBytes(u >> 16, n - 1))
  }

  lemma {:induction false} Stage3Small(s: bv64, n: nat)
    ensures SmallBytes(Stage3(Stage2(s)), n)
    decreases n
  {
    if n != 0 {
      Bounds3(s);
      Shifted23(s);
      Stage3Small(s >> 16, n - 1);
    }
  }

  lemma Step4(u: bv64)
    requires u & 255 <= 12 && (u >> 8) & 255 <= 12
    ensures Value(Stage4(u) & 0xffff) == Value(u & 255) + Value((u >> 8) & 255)
    ensures Stage4(u) >> 16 == Stage4((u >> 8) >> 8)
  {
    Shift4(u);
    AddValues(u & 255, (u >> 8) & 255);
  }

  lemma TwoBytes(l: bv64, n: nat)
    ensures ByteSum(l, n + 2) == Value(l & 255) + Value((l >> 8) & 255) + ByteSum((l >> 8) >> 8, n)
  {}

  lemma SameShift(u: bv64)
    ensures (u >> 8) >> 8 == u >> 16
  {}

  lemma {:induction false} Sum4(u: bv64, n: nat)
    requires SmallBytes(u, n)
    ensures ShortSum(Stage4(u), n) == ByteSum(u, n + n)
    decreases n
  {
    if n != 0 {
      Step4(u);
      SameShift(u);
      Sum4(u >> 16, n - 1);
      TwoBytes(u, n + n - 2);
    }
  }

  lemma {:induction false} Stage4Small(u: bv64, n: nat)
    requires SmallBytes(u, n)
    ensures SmallShorts(Stage4(u), n)
    decreases n
  {
    if n != 0 {
      Shift4(u);
      SameShift(u);
      Stage4Small(u >> 16, n - 1);
    }
  }

  ghost predicate SmallShorts(v: bv64, n: nat)
    decreases n
  {
    n == 0 || (v & 0xffff <= 24 && SmallShorts(v >> 16, n - 1))
  }

  // Some lemmas below take a constant as the parameter `n`: on a literal, the recursive sums would be
  // unfolded all the way.

  lemma Four(v: bv64, n: nat) returns (a: bv64, b: bv64, c: bv64, d: bv64)
    requires n == 4 && SmallShorts(v, n)
    ensures a == v & 0xffff && b == (v >> 16) & 0xffff && c == (v >> 32) & 0xffff && d == (v >> 48) & 0xffff
    ensures a <= 24 && b <= 24 && c <= 24 && d <= 24
    ensures ShortSum(v, n) == Value(a) + Value(b) + Value(c) + Value(d)
  {
    a, b, c, d := v & 0xffff, (v >> 16) & 0xffff, (v >> 32) & 0xffff, (v >> 48) & 0xffff;
    assert (v >> 16) >> 16 == v >> 32 && (v >> 32) >> 16 == v >> 48;
    assert SmallShorts(v >> 16, n - 1) && SmallShorts(v >> 32, n - 2) && SmallShorts(v >> 48, n - 3);
    assert ShortSum(v >> 32, n - 2) == Value((v >> 32) & 0xffff) + Value((v >> 48) & 0xffff);
  }

  lemma Stage5Low(v: bv64)
    ensures Stage5(v) & 0xffffffff == (v & 0xffff) + ((v >> 16) & 0xffff)
  {}

  lemma Stage5High(v: bv64)
    ensures (Stage5(v) >> 32) & 0xffffffff == ((v >> 32) & 0xffff) + ((v >> 48) & 0xffff)
  {}

  lemma Narrow(x: bv64)
    requires x <= 127
    ensures x as nat == Value(x)
  {}

  lemma AtMost(a: bv64, b: bv64, bound: bv64)
    requires bound <= 48 && a <= bound && b <= bound
    ensures a + b <= bound + bound
  {}

  lemma FifthStage(v: bv64, w: bv64, n: nat) returns (low: bv64, high: bv64)
    requires n == 4 && SmallShorts(v, n) && w == Stage5(v)
    ensures low == w & 0xffffffff && high == (w >> 32) & 0xffffffff && low <= 48 && high <= 48
    ensures Value(low) + Value(high) == ShortSum(v, n)
  {
    var a, b, c, d := Four(v, n);
    Stage5Low(v);
    Stage5High(v);
    low, high := a + b, c + d;
    AtMost(a, b, 24);
    AtMost(c, d, 24);
    AddValues(a, b);
    AddValues(c, d);
  }

  lemma SixthStage(w: bv64, low: bv64, high: bv64)
    requires low == w & 0xffffffff && high == (w >> 32) & 0xffffffff && low <= 48 && high <= 48
    ensures Stage6(w) as nat == Value(low) + Value(high)
  {
    assert Stage6(w) == low + high;
    AtMost(low, high, 48);
    AddValues(low, high);
    Narrow(low + high);
  }

  lemma FirstStages(l: bv64, s: bv64, t: bv64, n: nat)
    requires s == Stage1(l) && t == Stage2(s)
    ensures NibbleSum(t, n) == BitSum(l, 4 * n)
  {
    Sum1(l, n + n);
    Sum2(s, n);
  }

  lemma MiddleStages(s: bv64, t: bv64, u: bv64, v: bv64, n: nat)
    requires t == Stage2(s) && u == Stage3(t) && v == Stage4(u)
    ensures ShortSum(v, n) == NibbleSum(t, 4 * n) && SmallShorts(v, n)
  {
    Stage3Small(s, n);
    Sum3(t, n + n);
    Sum4(u, n);
    Stage4Small(u, n);
  }

  lemma LadderSums(l: bv64, s: bv64, t: bv64, u: bv64, v: bv64, w: bv64, n: nat)
    requires s == Stage1(l) && t == Stage2(s) && u == Stage3(t) && v == Stage4(u) && w == Stage5(v) && n == 4
    ensures Stage6(w) as nat == BitSum(l, 16 * n)
  {
    FirstStages(l, s, t, 4 * n);
    MiddleStages(s, t, u, v, n);
    var low, high := FifthStage(v, w, n);
    SixthStage(w, low, high);
  }

  /** The ladder adds up the bits of its word, for each of the 2^64 words. */
  lemma Ladder64Counts(l: bv64)
    ensures Ladder64(l) as nat == BitSum(l, 64)
  {
    var s := Stage1(l);
    var t := Stage2(s);
    var u := Stage3(t);
    var v := Stage4(u);
    LadderSums(l, s, t, u, v, Stage5(v), 4);
  }

  // ---------------------------------------------------------------------------
  // The ladder for 32-bit words
  // ---------------------------------------------------------------------------

  function Half1(l: bv32): bv32 {
    (l & 0x55555555) + ((l >> 1) & 0x55555555)
  }

  function Half2(l: bv32): bv32 {
    (l & 0x33333333) + ((l >> 2) & 0x33333333)
  }

  function Half3(l: bv32): bv32 {
    (l & 0x0f0f0f0f) + ((l >> 4) & 0x0f0f0f0f)
  }

  function Half4(l: bv32): bv32 {
    (l & 0x00ff00ff) + ((l >> 8) & 0x00ff00ff)
  }

  function Half5(l: bv32): bv32 {
    (l & 0x0000ffff) + ((l >> 16) & 0x0000ffff)
  }

  function Ladder32(l: bv32): bv32 {
    Half5(Half4(Half3(Half2(Half1(l)))))
  }

  function Wide(l: bv32): bv64 {
    l as bv64
  }

  lemma Widen1(l: bv32)
    ensures Wide(Half1(l)) == Stage1(Wide(l))
  {}

  lemma Widen2(l: bv32)
    ensures Wide(Half2(l)) == Stage2(Wide(l))
  {}

  lemma Widen3(l: bv32)
    ensures Wide(Half3(l)) == Stage3(Wide(l))
  {}

  lemma Widen4(l: bv32)
    ensures Wide(Half4(l)) == Stage4(Wide(l))
  {}

  lemma Widen5(l: bv32)
    ensures Wide(Half5(l)) == Stage6(Stage5(Wide(l)))
  {}

  lemma Widen12(l: bv32)
    ensures Wide(Half2(Half1(l))) == Stage2(Stage1(Wide(l)))
  {
    Widen1(l);
    Widen2(Half1(l));
  }

  lemma Widen123(l: bv32)
    ensures Wide(Half3(Half2(Half1(l)))) == Stage3(Stage2(Stage1(Wide(l))))
  {
    Widen12(l);
    Widen3(Half2(Half1(l)));
  }

  lemma Widen1234(l: bv32)
    ensures Wide(Half4(Half3(Half2(Half1(l))))) == Stage4(Stage3(Stage2(Stage1(Wide(l)))))
  {
    Widen123(l);
    Widen4(Half3(Half2(Half1(l))));
  }

  /** A word of 32 bits counts as it does with 32 zeros in front of it. */
  lemma Ladder32Widens(l: bv32)
    ensures Wide(Ladder32(l)) == Ladder64(Wide(l))
  {
    Widen1234(l);
    Widen5(Half4(Half3(Half2(Half1(l)))));
  }

  lemma Ladder32Counts(l: bv32)
    ensures Wide(Ladder32(l)) as nat == BitSum(Wide(l), 64)
  {
    Ladder32Widens(l);
    Ladder64Counts(Wide(l));
  }

  // ---------------------------------------------------------------------------
  // Counting a set
  // ---------------------------------------------------------------------------

  /** The number of positions below `n` whose bit is set. */
  function BitsBelow(w: bv64, n: nat): nat
    decreases n
  {
    if n == 0 then 0 else BitsBelow(w, n - 1) + (if Bit(w, ToBv(n - 1)) then 1 else 0)
  }

  lemma NextBit(w: bv64, q: bv7)
    requires q < 63
    ensures Bit(w >> 1, q) == Bit(w, q + 1)
  {}

  lemma ZeroOne(x: bv64)
    ensures Value(x & 1) == (if Bit(x, 0) then 1 else 0)
  {
    assert x & 1 == 0 || x & 1 == 1;
    assert (x >> 0) == x;
  }

  lemma ToBvSmall(i: nat)
    requires i < 63
    ensures ToBv(i) < 63 && ToBv(i + 1) == ToBv(i) + 1
  {
    ToBvNat(i);
  }

  lemma {:induction false} BitsBelowFirst(w: bv64, n: nat)
    requires n < 64
    ensures BitsBelow(w, n + 1) == (if Bit(w, 0) then 1 else 0) + BitsBelow(w >> 1, n)
    decreases n
  {
    if n != 0 {
      BitsBelowFirst(w, n - 1);
      ToBvSmall(n - 1);
      NextBit(w, ToBv(n - 1));
    }
  }

  /** Bits shifted out one by one are the bits at the positions below. */
  lemma {:induction false} AllBits(w: bv64, n: nat)
    requires n <= 64
    ensures BitSum(w, n) == BitsBelow(w, n)
    decreases n
  {
    if n != 0 {
      ZeroOne(w);
      AllBits(w >> 1, n - 1);
      BitsBelowFirst(w, n - 1);
    }
  }

  // ---------------------------------------------------------------------------
  // A set is determined by its members
  // ---------------------------------------------------------------------------

  ghost predicate SameBits(a: bv64, b: bv64, n: nat) {
    forall k: nat | k < n :: Bit(a, ToBv(k)) == Bit(b, ToBv(k))
  }

  /** A word without its lowest `n` bits. */
  function Drop(w: bv64, n: nat): bv64
    decreases n
  {
    if n == 0 then w else Drop(w >> 1, n - 1)
  }

  lemma FourShifts(w: bv64)
    ensures (((w >> 1) >> 1) >> 1) >> 1 == w >> 4
  {}

  lemma DropFour(w: bv64, n: nat)
    ensures Drop(w, n + 4) == Drop(w >> 4, n)
  {
    assert Drop(w, n + 4) == Drop((w >> 1) >> 1, n + 2);
    FourShifts(w);
  }

  function DropDigits(w: bv64, n: nat): bv64
    decreases n
  {
    if n == 0 then w else DropDigits(w >> 4, n - 1)
  }

  lemma {:induction false} DropByDigits(w: bv64, n: nat)
    ensures Drop(w, 4 * n) == DropDigits(w, n)
    decreases n
  {
    if n != 0 {
      DropFour(w, 4 * (n - 1));
      DropByDigits(w >> 4, n - 1);
    }
  }

  lemma FourDigits(w: bv64)
    ensures (((w >> 4) >> 4) >> 4) >> 4 == w >> 16
  {}

  lemma DropFourDigits(w: bv64, n: nat)
    ensures DropDigits(w, n + 4) == DropDigits(w >> 16, n)
  {
    assert DropDigits(w, n + 4) == DropDigits((w >> 4) >> 4, n + 2);
    FourDigits(w);
  }

  lemma FourQuarters(w: bv64)
    ensures (((w >> 16) >> 16) >> 16) >> 16 == 0
  {}

  lemma DropAllDigits(w: bv64, n: nat)
    requires n == 16
    ensures DropDigits(w, n) == 0
  {
    DropFourDigits(w, n - 4);
    DropFourDigits(w >> 16, n - 8);
    DropFourDigits((w >> 16) >> 16, n - 12);
    DropFourDigits(((w >> 16) >> 16) >> 16, n - 16);
    FourQuarters(w);
  }

  lemma SameParts(a: bv64, b: bv64)
    requires Bit(a, 0) == Bit(b, 0) && a >> 1 == b >> 1
    ensures a == b
  {
    assert (a >> 0) == a && (b >> 0) == b;
    assert (a & 1 == 0 || a & 1 == 1) && (b & 1 == 0 || b & 1 == 1);
  }

  /** Words that agree below `n` still do, one position lower, when both lose their last bit. */
  lemma SameShifted(a: bv64, b: bv64, n: nat)
    requires 1 <= n <= 64 && SameBits(a, b, n)
    ensures SameBits(a >> 1, b >> 1, n - 1) && Bit(a, 0) == Bit(b, 0)
  {
    forall k: nat | k < n - 1
      ensures Bit(a >> 1, ToBv(k)) == Bit(b >> 1, ToBv(k))
    {
      SameNext(a, b, n, k);
    }
    assert Bit(a, ToBv(0)) == Bit(b, ToBv(0));
  }

  lemma SameNext(a: bv64, b: bv64, n: nat, k: nat)
    requires n <= 64 && SameBits(a, b, n) && k + 1 < n
    ensures Bit(a >> 1, ToBv(k)) == Bit(b >> 1, ToBv(k))
  {
    ToBvSmall(k);
    NextBit(a, ToBv(k));
    NextBit(b, ToBv(k));
    assert Bit(a, ToBv(k + 1)) == Bit(b, ToBv(k + 1));
  }

  lemma {:induction false} SameBelow(a: bv64, b: bv64, n: nat)
    requires n <= 64 && SameBits(a, b, n) && Drop(a, n) == Drop(b, n)
    ensures a == b
    decreases n
  {
    if n != 0 {
      SameShifted(a, b, n);
      SameBelow(a >> 1, b >> 1, n - 1);
      SameParts(a, b);
    }
  }

  lemma SameWord(a: bv64, b: bv64, n: nat)
    requires n == 16 && SameBits(a, b, 4 * n)
    ensures a == b
  {
    DropByDigits(a, n);
    DropByDigits(b, n);
    DropAllDigits(a, n);
    DropAllDigits(b, n);
    SameBelow(a, b, 4 * n);
  }

  lemma CpuOf(words: seq<bv64>, w: nat, k: nat)
    requires w < |words| && k < 64
    ensures InSet(words, 64 * w + k) == Bit(words[w], ToBv(k))
  {
    assert (64 * w + k) / 64 == w && (64 * w + k) % 64 == k;
  }

  lemma SameWords(a: seq<bv64>, b: seq<bv64>)
    requires |a| == |b| && forall c: nat | c < 64 * |a| :: InSet(a, c) == InSet(b, c)
    ensures a == b
  {
    forall w | 0 <= w < |a|
      ensures a[w] == b[w]
    {
      forall k: nat | k < 64
        ensures Bit(a[w], ToBv(k)) == Bit(b[w], ToBv(k))
      {
        CpuOf(a, w, k);
        CpuOf(b, w, k);
      }
      SameWord(a[w], b[w], 16);
    }
  }

  /** The CPUs below `n` that are in a set. */
  ghost function Members(words: seq<bv64>, n: nat): set<nat> {
    set c: nat | 0 <= c < n && InSet(words, c)
  }

  lemma {:induction false} MembersOfWord(words: seq<bv64>, w: nat, n: nat)
    requires w < |words| && n <= 64
    ensures |Members(words, 64 * w + n)| == |Members(words, 64 * w)| + BitsBelow(words[w], n)
    decreases n
  {
    if n != 0 {
      MembersOfWord(words, w, n - 1);
      var c := 64 * w + n - 1;
      assert c / 64 == w && c % 64 == n - 1;
      MembersStep(words, c);
    }
  }

  lemma MembersStep(words: seq<bv64>, c: nat)
    ensures |Members(words, c + 1)| == |Members(words, c)| + (if InSet(words, c) then 1 else 0)
  {
    if InSet(words, c) {
      assert Members(words, c + 1) == Members(words, c) + {c};
    } else {
      assert Members(words, c + 1) == Members(words, c);
    }
  }

  /** One more word: the ladder counts its members, and skipping a zero word changes nothing. */
  lemma WordCount(words: seq<bv64>, w: nat, n: nat)
    requires w < |words| && n == 64
    ensures |Members(words, 64 * w + n)| == |Members(words, 64 * w)| + Ladder64(words[w]) as nat
    ensures words[w] == 0 ==> Ladder64(words[w]) as nat == 0
  {
    Ladder64Counts(words[w]);
    AllBits(words[w], n);
    MembersOfWord(words, w, n);
  }

  /** __cpuset_count_s: the number of CPUs in the set. */
  method CountS(set_: array<bv64>) returns (s: nat)
    ensures s == |Members(set_[..], 64 * set_.Length)|
  {
    s := 0;
    var p := 0;
    assert Members(set_[..], 0) == {};
    while p < set_.Length
      invariant 0 <= p <= set_.Length
      invariant s == |Members(set_[..], 64 * p)|
    {
      var l := set_[p];
      WordCount(set_[..], p, 64);
      p := p + 1;
      if l == 0 {
        continue;
      }
      s := s + Ladder64(l) as nat;
    }
  }

  // ---------------------------------------------------------------------------
  // Sets of 32-bit words
  // ---------------------------------------------------------------------------

  predicate InSet32(words: seq<bv32>, cpu: nat) {
    cpu / 32 < |words| && Bit(Wide(words[cpu / 32]), ToBv(cpu % 32))
  }

  ghost function Members32(words: seq<bv32>, n: nat): set<nat> {
    set c: nat | 0 <= c < n && InSet32(words, c)
  }

  lemma NoHighBit(l: bv32, p: bv7)
    requires 32 <= p < 64
    ensures !Bit(Wide(l), p)
  {}

  lemma HighPosition(i: nat)
    requires 32 <= i < 64
    ensures 32 <= ToBv(i) < 64
  {
    ToBvNat(i);
  }

  /** The upper half of a widened word holds nothing to count. */
  lemma {:induction false} LowHalfCounts(l: bv32, n: nat, half: nat)
    requires half == 32 && half <= n <= 64
    ensures BitsBelow(Wide(l), n) == BitsBelow(Wide(l), half)
    decreases n
  {
    if n != half {
      LowHalfCounts(l, n - 1, half);
      HighPosition(n - 1);
      NoHighBit(l, ToBv(n - 1));
    }
  }

  lemma Members32Step(words: seq<bv32>, c: nat)
    ensures |Members32(words, c + 1)| == |Members32(words, c)| + (if InSet32(words, c) then 1 else 0)
  {
    if InSet32(words, c) {
      assert Members32(words, c + 1) == Members32(words, c) + {c};
    } else {
      assert Members32(words, c + 1) == Members32(words, c);
    }
  }

  lemma {:induction false} Members32OfWord(words: seq<bv32>, w: nat, n: nat)
    requires w < |words| && n <= 32
    ensures |Members32(words, 32 * w + n)| == |Members32(words, 32 * w)| + BitsBelow(Wide(words[w]), n)
    decreases n
  {
    if n != 0 {
      Members32OfWord(words, w, n - 1);
      var c := 32 * w + n - 1;
      assert c / 32 == w && c % 32 == n - 1;
      Members32Step(words, c);
    }
  }

  /** One more word of 32 bits: the ladder counts its members, and a zero word has none. */
  lemma WordCount32(words: seq<bv32>, w: nat, n: nat)
    requires w < |words| && n == 32
    ensures |Members32(words, 32 * w + n)| == |Members32(words, 32 * w)| + Wide(Ladder32(words[w])) as nat
    ensures words[w] == 0 ==> Wide(Ladder32(words[w])) as nat == 0
  {
    var l := words[w];
    Ladder32Counts(l);
    AllBits(Wide(l), n + n);
    LowHalfCounts(l, n + n, n);
    Members32OfWord(words, w, n);
  }

  /** __cpuset_count_s where a word has 32 bits. */
  method CountS32(set_: array<bv32>) returns (s: nat)
    ensures s == |Members32(set_[..], 32 * set_.Length)|
  {
    s := 0;
    var p := 0;
    assert Members32(set_[..], 0) == {};
    while p < set_.Length
      invariant 0 <= p <= set_.Length
      invariant s == |Members32(set_[..], 32 * p)|
    {
      var l := set_[p];
      WordCount32(set_[..], p, 32);
      p := p + 1;
      if l == 0 {
        continue;
      }
      s := s + Wide(Ladder32(l)) as nat;
    }
  }
}
