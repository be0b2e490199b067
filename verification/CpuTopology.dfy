/**
 lib/cputopology.c: reading a CPU mask as /sys writes it, hexadecimal digits in groups separated by
 commas, most significant first. The parser reads from the right.
 */
module CpuTopology {
  import opened CpuSet

  predicate IsHexDigit(c: char) {
    '0' <= c <= '9' || 'a' <= c <= 'f' || 'A' <= c <= 'F'
  }

  /** char_to_val */
  function CharToVal(c: char): (v: int)
    ensures v == -1 <==> !IsHexDigit(c)
    ensures -1 <= v < 16
  {
    if '0' <= c <= '9' then c as int - '0' as int
    else if 'a' <= c <= 'f' then c as int - 'a' as int + 10
    else if 'A' <= c <= 'F' then c as int - 'A' as int + 10
    else -1
  }

  /** The value of a hexadecimal digit, of either case, is its place among the digits. */
  lemma CharToValExact(c: char, v: nat)
    requires v < 16
    ensures CharToVal(c) == v <==> c == "0123456789abcdef"[v] || c == "0123456789ABCDEF"[v]
  {}

  /** The value of a digit; other characters count as nothing. */
  function DigitOf(c: char): (v: nat)
    ensures v < 16
  {
    if IsHexDigit(c) then CharToVal(c) else 0
  }

  /** The number that a mask denotes: its digits in base 16, without the commas. */
  function Number(s: string): nat {
    if s == "" then 0
    else if s[|s| - 1] == ',' then Number(s[..|s| - 1])
    else 16 * Number(s[..|s| - 1]) + DigitOf(s[|s| - 1])
  }

  /** Bit `i` of a number. */
  predicate NumberBit(n: nat, i: nat)
    decreases i
  {
    if i == 0 then n % 2 == 1 else NumberBit(n / 2, i - 1)
  }

  /** Bit `i` of a mask, counted off digit by digit from the right. */
  predicate MaskBit(s: string, i: nat) {
    if s == "" then false
    else if s[|s| - 1] == ',' then MaskBit(s[..|s| - 1], i)
    else if i < 4 then NumberBit(DigitOf(s[|s| - 1]), i)
    else MaskBit(s[..|s| - 1], i - 4)
  }

  lemma FourHalves(n: nat, i: nat)
    requires i >= 4
    ensures NumberBit(n, i) == NumberBit(n / 2 / 2 / 2 / 2, i - 4)
  {
    assert NumberBit(n / 2 / 2, i - 2) == NumberBit(n / 2 / 2 / 2, i - 3);
  }

  lemma HalvesOfDigits(n: nat, d: nat)
    requires d < 16
    ensures (16 * n + d) / 2 == 8 * n + d / 2 && (8 * n + d / 2) / 2 == 4 * n + d / 2 / 2
    ensures (4 * n + d / 2 / 2) / 2 == 2 * n + d / 2 / 2 / 2 && (2 * n + d / 2 / 2 / 2) / 2 == n
  {}

  /** The bits of the number with one more digit. */
  lemma BitShift(n: nat, d: nat, i: nat)
    requires d < 16
    ensures NumberBit(16 * n + d, i) <==> if i < 4 then NumberBit(d, i) else NumberBit(n, i - 4)
  {
    HalvesOfDigits(n, d);
    if i >= 4 {
      FourHalves(16 * n + d, i);
    } else {
      LowBits(16 * n + d);
      LowBits(d);
    }
  }

  lemma LowBits(n: nat)
    ensures NumberBit(n, 0) == (n % 2 == 1) && NumberBit(n, 1) == (n / 2 % 2 == 1)
    ensures NumberBit(n, 2) == (n / 2 / 2 % 2 == 1) && NumberBit(n, 3) == (n / 2 / 2 / 2 % 2 == 1)
  {
    assert NumberBit(n / 2 / 2, 1) == NumberBit(n / 2 / 2 / 2, 0);
  }

  lemma {:induction false} NoBits(i: nat)
    ensures !NumberBit(0, i)
  {
    if i != 0 {
      NoBits(i - 1);
    }
  }

  /** The two readings of a mask agree: the bits counted off from the right are those of the number it denotes. */
  lemma {:induction false} MaskBitMeaning(s: string, i: nat)
    ensures MaskBit(s, i) <==> NumberBit(Number(s), i)
    decreases |s|
  {
    if s == "" {
      NoBits(i);
    } else if s[|s| - 1] == ',' {
      MaskBitMeaning(s[..|s| - 1], i);
    } else {
      BitShift(Number(s[..|s| - 1]), DigitOf(s[|s| - 1]), i);
      if i >= 4 {
        MaskBitMeaning(s[..|s| - 1], i - 4);
      }
    }
  }

  // ---------------------------------------------------------------------------
  // The parser
  // ---------------------------------------------------------------------------

  /** What the parser skips at the start. */
  function PrefixOf(str: string): nat {
    if |str| > 1 && str[..2] == "0x" then 2 else 0
  }

  /** Position `i` of a mask is fine: a digit, or a comma after a digit. */
  predicate FineAt(s: string, i: nat)
    requires i < |s|
  {
    IsHexDigit(s[i]) || (s[i] == ',' && i > 0 && IsHexDigit(s[i - 1]))
  }

  /** What the parser accepts: digits, with at most one comma after each. */
  predicate Accepted(s: string) {
    forall i | 0 <= i < |s| :: FineAt(s, i)
  }

  /** A comma in front of everything else that would be fine: the parser steps back beyond it. */
  predicate LeadingComma(s: string) {
    s != "" && s[0] == ',' && forall i | 0 < i < |s| :: FineAt(s, i)
  }

  datatype Outcome = Parsed(cpus: nat) | Malformed | BeforeText

  /** The four tests of a digit's bits. */
  method SetDigit(val: nat, cpu: nat, set_: array<bv64>)
    requires val < 16
    modifies set_
    ensures forall c: nat :: InSet(set_[..], c) ==
                             (InSet(old(set_[..]), c) || (cpu <= c < cpu + 4 && c < 64 * set_.Length && NumberBit(val, c - cpu)))
  {
    LowBits(val);
    if val % 2 == 1 {
      SetS(cpu, set_);
    }
    if val / 2 % 2 == 1 {
      SetS(cpu + 1, set_);
    }
    if val / 4 % 2 == 1 {
      SetS(cpu + 2, set_);
    }
    if val / 8 % 2 == 1 {
      SetS(cpu + 3, set_);
    }
  }

  /** Without the comma at the end, if there is one. */
  function DropComma(s: string): string {
    if s != "" && s[|s| - 1] == ',' then s[..|s| - 1] else s
  }

  /** How reading a mask from the right ends; in front of a prefixed mask stands the `x` of the prefix. */
  function Reading(s: string, prefixed: bool): Outcome
  {
    if s == "" then Parsed(0)
    else
      var t := DropComma(s);
      if t == "" then (if prefixed then Malformed else BeforeText)
      else if !IsHexDigit(t[|t| - 1]) then Malformed
      else Reading(t[..|t| - 1], prefixed)
  }

  /** A mask that the parser steps back beyond, and one that it refuses although a comma leads it. */
  lemma LeadingCommas()
    ensures LeadingComma(",f") && PrefixOf(",f") == 0 && Reading(",f", false) == BeforeText
    ensures !LeadingComma(",zz") && Reading(",zz", false) == Malformed
  {
    ReadingExact(",f", false);
    ReadingExact(",zz", false);
    assert !FineAt(",zz", 1);
  }

  lemma FinePrefix(s: string, n: nat)
    requires n <= |s|
    ensures forall i | 0 <= i < n :: FineAt(s[..n], i) == FineAt(s, i)
  {
    assert forall i | 0 <= i < n :: s[..n][i] == s[i];
  }

  /** It succeeds exactly on the accepted masks, and leaves the text exactly at a leading comma. */
  lemma {:induction false} ReadingExact(s: string, prefixed: bool)
    ensures Reading(s, prefixed).Parsed? <==> Accepted(s)
    ensures Reading(s, prefixed).BeforeText? <==> !prefixed && LeadingComma(s)
    decreases |s|
  {
    if s != "" {
      var t := DropComma(s);
      if t != "" && IsHexDigit(t[|t| - 1]) {
        var n := |t| - 1;
        assert t[..n] == s[..n] && t[n] == s[n];
        ReadingExact(s[..n], prefixed);
        FinePrefix(s, n);
        assert FineAt(s, n) && FineAt(s, |s| - 1);
      } else {
        assert !FineAt(s, |s| - 1);
      }
    }
  }

  lemma MaskBitStep(rest: string, i: nat)
    requires DropComma(rest) != "" && IsHexDigit(DropComma(rest)[|DropComma(rest)| - 1])
    ensures var t := DropComma(rest);
            MaskBit(rest, i) == if i < 4 then NumberBit(CharToVal(t[|t| - 1]), i) else MaskBit(t[..|t| - 1], i - 4)
  {
    assert MaskBit(rest, i) == MaskBit(DropComma(rest), i);
  }

  /** The bits of `s` from `cpu` on are those of `rest`. */
  ghost predicate Remains(s: string, cpu: nat, rest: string) {
    forall c: nat | c >= cpu :: MaskBit(s, c) == MaskBit(rest, c - cpu)
  }

  /** The bits of `s` below `cpu` are in the set, as far as they fit. */
  ghost predicate Taken(words: seq<bv64>, s: string, cpu: nat) {
    forall c: nat :: InSet(words, c) == (c < cpu && c < 64 * |words| && MaskBit(s, c))
  }

  lemma RemainsStep(s: string, cpu: nat, rest: string)
    requires Remains(s, cpu, rest)
    requires DropComma(rest) != "" && IsHexDigit(DropComma(rest)[|DropComma(rest)| - 1])
    ensures var t := DropComma(rest);
            && Remains(s, cpu + 4, t[..|t| - 1])
            && forall c: nat | cpu <= c < cpu + 4 :: MaskBit(s, c) == NumberBit(CharToVal(t[|t| - 1]), c - cpu)
  {
    forall c: nat | c >= cpu
      ensures var t := DropComma(rest);
              MaskBit(s, c) == if c < cpu + 4 then NumberBit(CharToVal(t[|t| - 1]), c - cpu) else MaskBit(t[..|t| - 1], c - (cpu + 4))
    {
      MaskBitStep(rest, c - cpu);
    }
  }

  method TakeDigit(val: nat, cpu: nat, set_: array<bv64>, ghost s: string)
    requires val < 16 && Taken(set_[..], s, cpu)
    requires forall c: nat | cpu <= c < cpu + 4 :: MaskBit(s, c) == NumberBit(val, c - cpu)
    modifies set_
    ensures Taken(set_[..], s, cpu + 4)
  {
    SetDigit(val, cpu, set_);
  }

  lemma NothingRemains(s: string, cpu: nat, words: seq<bv64>)
    requires Remains(s, cpu, "") && Taken(words, s, cpu)
    ensures forall c: nat :: InSet(words, c) <==> c < 64 * |words| && NumberBit(Number(s), c)
  {
    forall c: nat
      ensures MaskBit(s, c) ==> c < cpu
      ensures MaskBit(s, c) <==> NumberBit(Number(s), c)
    {
      MaskBitMeaning(s, c);
      if c >= cpu {
        assert !MaskBit("", c - cpu);
      }
    }
  }

  /** One turn of the parser's loop, up to the value: the digit, Malformed (-1) or BeforeText (-2), and where it stands. */
  method NextDigit(str: string, start: nat, ptr: int) returns (val: int, at: int)
    requires start <= ptr < |str| && (start == 0 || (start == 2 && str[1] == 'x'))
    ensures var t := DropComma(str[start..ptr + 1]);
            if t == "" then val == if start == 0 then -2 else -1
            else val == CharToVal(t[|t| - 1]) && start <= at <= ptr && t == str[start..at + 1]
  {
    ghost var rest := str[start..ptr + 1];
    assert rest[|rest| - 1] == str[ptr];
    at := ptr;
    if str[at] == ',' {
      at := at - 1;
      if at < 0 {
        return -2, at;
      }
    }
    assert at >= start ==> DropComma(rest) == str[start..at + 1];
    val := CharToVal(str[at]);
  }

  lemma ReadingStep(str: string, start: nat, ptr: int, at: int, prefixed: bool)
    requires start <= at <= ptr < |str| && DropComma(str[start..ptr + 1]) == str[start..at + 1] && IsHexDigit(str[at])
    ensures Reading(str[start..ptr + 1], prefixed) == Reading(str[start..at], prefixed)
    ensures DropComma(str[start..ptr + 1])[..at - start] == str[start..at]
  {
    assert str[start..at + 1][..at - start] == str[start..at];
  }

  /** The mask from `start` on has been read from the right down to `ptr`; `words` holds what was read. */
  ghost predicate ReadDownTo(str: string, start: nat, ptr: int, cpu: nat, words: seq<bv64>)
    requires start <= |str| && start - 1 <= ptr < |str|
  {
    && Reading(str[start..ptr + 1], start == 2) == Reading(str[start..], start == 2)
    && Remains(str[start..], cpu, str[start..ptr + 1]) && Taken(words, str[start..], cpu)
  }

  /** One turn of the loop: the place of the next digit, or an error. */
  method Turn(str: string, start: nat, ptr: int, cpu: nat, set_: array<bv64>) returns (val: int, next: int)
    requires start <= ptr < |str| && (start == 0 || (start == 2 && str[1] == 'x'))
    requires ReadDownTo(str, start, ptr, cpu, set_[..])
    modifies set_
    ensures val == -2 ==> Reading(str[start..], start == 2) == BeforeText
    ensures val == -1 ==> Reading(str[start..], start == 2) == Malformed
    ensures val >= 0 ==> start - 1 <= next < ptr && ReadDownTo(str, start, next, cpu + 4, set_[..])
    ensures val >= -2
  {
    var at;
    val, at := NextDigit(str, start, ptr);
    next := at - 1;
    if val >= 0 {
      RemainsStep(str[start..], cpu, str[start..ptr + 1]);
      TakeDigit(val, cpu, set_, str[start..]);
      ReadingStep(str, start, ptr, at, start == 2);
    }
  }

  /** The loop of cpumask_parse. */
  method TakeDigits(str: string, start: nat, set_: array<bv64>) returns (r: Outcome)
    requires start <= |str| && (start == 0 || (start == 2 && str[1] == 'x'))
    requires forall c: nat :: !InSet(set_[..], c)
    modifies set_
    ensures r == Reading(str[start..], start == 2)
    ensures r.Parsed? ==>
            forall c: nat :: InSet(set_[..], c) <==> c < 64 * set_.Length && NumberBit(Number(str[start..]), c)
  {
    var ptr := |str| - 1;
    var cpu := 0;
    assert str[start..ptr + 1] == str[start..];
    while ptr >= start
      invariant start - 1 <= ptr < |str| && ReadDownTo(str, start, ptr, cpu, set_[..])
    {
      var val, next := Turn(str, start, ptr, cpu, set_);
      if val == -2 {
        return BeforeText;
      }
      if val == -1 {
        return Malformed;
      }
      ptr := next;
      cpu := cpu + 4;
    }
    NothingRemains(str[start..], cpu, set_[..]);
    return Parsed(0);
  }

  /**
   cpumask_parse. It returns the number of CPUs set (or -1, Malformed); on success, they are the one
   bits of the number that the mask denotes, as far as they fit. BeforeText: the text starts with a
   comma, and the source would read the byte before it.
   */
  method CpumaskParse(str: string, set_: array<bv64>) returns (r: Outcome)
    modifies set_
    ensures r.Parsed? <==> Accepted(str[PrefixOf(str)..])
    ensures r.BeforeText? <==> PrefixOf(str) == 0 && LeadingComma(str)
    ensures r.Parsed? ==>
            && IsParsed(str, set_[..])
            && r.cpus == |Members(set_[..], 64 * set_.Length)|
  {
    var start := PrefixOf(str);
    ghost var s := str[start..];
    ReadingExact(s, start == 2);
    assert start == 0 ==> s == str;
    ZeroS(set_);
    r := TakeDigits(str, start, set_);
    if r.Parsed? {
      var n := CountS(set_);
      r := Parsed(n);
    }
  }

  // ---------------------------------------------------------------------------
  // Writing a mask
  // ---------------------------------------------------------------------------

  function HexDigit(v: nat): (c: char)
    requires v < 16
    ensures IsHexDigit(c) && CharToVal(c) == v
  {
    if v < 10 then '0' + v as char else 'a' + (v - 10) as char
  }

  /** The four CPUs of digit `d`, as a number. */
  function FourCpus(cpus: set<nat>, d: nat): (v: nat)
    ensures v < 16
  {
    (if 4 * d in cpus then 1 else 0) + (if 4 * d + 1 in cpus then 2 else 0)
    + (if 4 * d + 2 in cpus then 4 else 0) + (if 4 * d + 3 in cpus then 8 else 0)
  }

  /** The `n` digits from digit `lo` on, as the kernel writes them: a comma between groups of eight. */
  function MaskText(cpus: set<nat>, lo: nat, n: nat): string
    decreases n
  {
    if n == 0 then ""
    else
      MaskText(cpus, lo + 1, n - 1)
      + (if n > 1 && (lo + 1) % 8 == 0 then "," else "")
      + [HexDigit(FourCpus(cpus, lo))]
  }

  lemma DigitBits(cpus: set<nat>, d: nat, i: nat)
    requires i < 4
    ensures NumberBit(FourCpus(cpus, d), i) == (4 * d + i in cpus)
  {
    LowBits(FourCpus(cpus, d));
  }

  lemma {:induction false} MaskTextReads(cpus: set<nat>, lo: nat, n: nat)
    ensures Reading(MaskText(cpus, lo, n), false) == Parsed(0)
    ensures n > 0 ==> MaskText(cpus, lo, n) != "" && IsHexDigit(MaskText(cpus, lo, n)[|MaskText(cpus, lo, n)| - 1])
    decreases n
  {
    if n != 0 {
      var front := MaskText(cpus, lo + 1, n - 1);
      MaskTextReads(cpus, lo + 1, n - 1);
      var s := MaskText(cpus, lo, n);
      assert DropComma(s) == s;
      if n > 1 && (lo + 1) % 8 == 0 {
        assert s[..|s| - 1] == front + ",";
        assert DropComma(front + ",") == front;
        ReadingDropsComma(front);
      } else {
        assert s[..|s| - 1] == front;
      }
    }
  }

  lemma ReadingDropsComma(s: string)
    requires s != "" && IsHexDigit(s[|s| - 1])
    ensures Reading(s + ",", false) == Reading(s, false)
  {
    assert DropComma(s + ",") == s && DropComma(s) == s;
  }

  lemma {:induction false} MaskTextBits(cpus: set<nat>, lo: nat, n: nat, i: nat)
    ensures MaskBit(MaskText(cpus, lo, n), i) <==> i < 4 * n && 4 * lo + i in cpus
    decreases n
  {
    if n != 0 {
      var front := MaskText(cpus, lo + 1, n - 1);
      var s := MaskText(cpus, lo, n);
      if i < 4 {
        DigitBits(cpus, lo, i);
      } else {
        MaskTextBits(cpus, lo + 1, n - 1, i - 4);
        if n > 1 && (lo + 1) % 8 == 0 {
          assert s[..|s| - 1] == front + ",";
          assert (front + ",")[..|front|] == front;
        } else {
          assert s[..|s| - 1] == front;
        }
      }
    }
  }

  lemma NoPrefix(s: string)
    requires Accepted(s)
    ensures PrefixOf(s) == 0
  {
    assert |s| > 1 ==> FineAt(s, 1);
  }

  /** What cpumask_parse promises to leave in a set of `n` words when it accepts `str`. */
  ghost predicate IsParsed(str: string, parsed: seq<bv64>) {
    forall c: nat :: InSet(parsed, c) <==> c < 64 * |parsed| && NumberBit(Number(str[PrefixOf(str)..]), c)
  }

  /** Behind a prefix the rest is read; a mask that is accepted by itself stands for the same set there. */
  lemma PrefixedMask(s: string, parsed: seq<bv64>)
    ensures ("0x" + s)[PrefixOf("0x" + s)..] == s
    ensures IsParsed("0x" + s, parsed) <==> forall c: nat :: InSet(parsed, c) <==> c < 64 * |parsed| && NumberBit(Number(s), c)
    ensures Accepted(s) ==> s[PrefixOf(s)..] == s && (IsParsed("0x" + s, parsed) <==> IsParsed(s, parsed))
  {
    assert ("0x" + s)[..2] == "0x" && ("0x" + s)[2..] == s;
    if Accepted(s) {
      NoPrefix(s);
      assert s[0..] == s;
    }
  }

  /** Writing any CPU set as a mask and parsing the mask into a set of the same size gives the set back. */
  lemma MaskRoundTrip(words: seq<bv64>, parsed: seq<bv64>)
    requires |parsed| == |words|
    requires IsParsed(MaskText(Members(words, 64 * |words|), 0, 16 * |words|), parsed)
    ensures Accepted(MaskText(Members(words, 64 * |words|), 0, 16 * |words|))
    ensures parsed == words
  {
    var cpus := Members(words, 64 * |words|);
    var s := MaskText(cpus, 0, 16 * |words|);
    WrittenMask(cpus, 16 * |words|);
    assert s[0..] == s;
    forall c: nat | c < 64 * |parsed|
      ensures InSet(parsed, c) == InSet(words, c)
    {
      MaskTextNumber(cpus, 16 * |words|, c);
    }
    SameWords(parsed, words);
  }

  lemma WrittenMask(cpus: set<nat>, n: nat)
    ensures Accepted(MaskText(cpus, 0, n)) && PrefixOf(MaskText(cpus, 0, n)) == 0
  {
    MaskTextReads(cpus, 0, n);
    ReadingExact(MaskText(cpus, 0, n), false);
    NoPrefix(MaskText(cpus, 0, n));
  }

  /** The number written has the CPUs for its one bits. */
  lemma MaskTextNumber(cpus: set<nat>, n: nat, c: nat)
    ensures NumberBit(Number(MaskText(cpus, 0, n)), c) <==> c < 4 * n && c in cpus
  {
    MaskBitMeaning(MaskText(cpus, 0, n), c);
    MaskTextBits(cpus, 0, n, c);
  }
}
