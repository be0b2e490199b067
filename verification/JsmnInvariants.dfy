/**
 What holds in every state that the fill pass can reach, on any text whatever.
 */
module JsmnInvariants {
  import opened JsmnLexing
  import opened JsmnMachine

  /** The sum of the `size` fields of the first `n` tokens. */
  function SumSizes(ts: seq<Token>, n: nat): int
    requires n <= |ts|
  {
    if n == 0 then 0 else SumSizes(ts, n - 1) + ts[n - 1].size
  }

  /** Every token starts after its predecessors, and before the cursor. */
  ghost predicate StartsIncrease(ts: seq<Token>, pos: nat) {
    && (forall i | 0 <= i < |ts| :: 0 <= ts[i].start < pos)
    && (forall i, j | 0 <= i < j < |ts| :: ts[i].start < ts[j].start)
  }

  /** A closed span lies within what has been read; only objects and arrays are open. */
  ghost predicate SpansWithin(ts: seq<Token>, pos: nat) {
    forall i | 0 <= i < |ts| ::
      && ts[i].kind != Undefined
      && (ts[i].IsOpen() ==> ts[i].IsContainer())
      && (!ts[i].IsOpen() ==> ts[i].start <= ts[i].end <= pos)
  }

  /**
   A closed span either ends before a later token starts or contains that token, which is then
   closed as well. So closed spans are nested or disjoint, and an open token is enclosed by the
   open tokens before it: they form a chain.
   */
  ghost predicate NestedOrDisjoint(ts: seq<Token>) {
    forall i, j | 0 <= i < j < |ts| && !ts[i].IsOpen() ::
      ts[i].end <= ts[j].start || (!ts[j].IsOpen() && ts[j].end <= ts[i].end)
  }

  ghost predicate SpansOk(ts: seq<Token>, pos: nat) {
    StartsIncrease(ts, pos) && SpansWithin(ts, pos) && NestedOrDisjoint(ts)
  }

  /** `size` counts the tokens made while this one was the superior. */
  ghost predicate SizesCount(ts: seq<Token>, parents: seq<int>) {
    && |parents| == |ts|
    && (forall i | 0 <= i < |ts| :: ts[i].size == multiset(parents)[i])
    && SumSizes(ts, |ts|) + multiset(parents)[-1] == |ts|
  }

  ghost predicate Inv(js: string, st: State) {
    && st.Valid()
    && st.pos <= |js|
    && SpansOk(st.tokens, st.pos)
    && SizesCount(st.tokens, st.parents)
  }

  lemma {:induction false} SumOfSame(ts: seq<Token>, us: seq<Token>, n: nat)
    requires n <= |ts| && n <= |us| && forall i | 0 <= i < n :: ts[i].size == us[i].size
    ensures SumSizes(ts, n) == SumSizes(us, n)
  {
    if n != 0 {
      SumOfSame(ts, us, n - 1);
    }
  }

  lemma {:induction false} SumOfBump(ts: seq<Token>, i: int, n: nat)
    requires -1 <= i < |ts| && n <= |ts|
    ensures SumSizes(Bump(ts, i), n) == SumSizes(ts, n) + (if 0 <= i < n then 1 else 0)
  {
    if n != 0 {
      SumOfBump(ts, i, n - 1);
    }
  }

  lemma OneMoreIn(parents: seq<int>, p: int, i: int)
    ensures multiset(parents + [p])[i] == multiset(parents)[i] + (if p == i then 1 else 0)
  {
    assert multiset(parents + [p]) == multiset(parents) + multiset{p};
  }

  lemma NoneYet(parents: seq<int>, n: nat)
    requires forall i | 0 <= i < |parents| :: parents[i] < n
    ensures multiset(parents)[n] == 0
  {
    assert n !in parents;
  }

  lemma AddCountsAt(st: State, t: Token, pos: nat, i: nat)
    requires st.Valid() && SizesCount(st.tokens, st.parents) && t.size == 0 && i <= |st.tokens|
    ensures Add(st, t, pos).tokens[i].size == multiset(Add(st, t, pos).parents)[i]
  {
    OneMoreIn(st.parents, st.toksuper, i);
    if i == |st.tokens| {
      NoneYet(st.parents, i);
    }
  }

  lemma AddCounts(st: State, t: Token, pos: nat)
    requires st.Valid() && SizesCount(st.tokens, st.parents) && t.size == 0
    ensures SizesCount(Add(st, t, pos).tokens, Add(st, t, pos).parents)
  {
    var next := Add(st, t, pos);
    var n := |st.tokens|;
    forall i | 0 <= i <= n
      ensures next.tokens[i].size == multiset(next.parents)[i]
    {
      AddCountsAt(st, t, pos, i);
    }
    OneMoreIn(st.parents, st.toksuper, -1);
    SumOfBump(st.tokens, st.toksuper, n);
    SumOfSame(next.tokens, Bump(st.tokens, st.toksuper), n);
  }

  /** `size` plays no part in the spans. */
  lemma BumpSpans(ts: seq<Token>, i: int, pos: nat)
    requires -1 <= i < |ts| && SpansOk(ts, pos)
    ensures SpansOk(Bump(ts, i), pos)
  {
    var us := Bump(ts, i);
    assert forall j | 0 <= j < |ts| :: us[j].start == ts[j].start && us[j].end == ts[j].end && us[j].kind == ts[j].kind;
  }

  lemma AppendSpans(ts: seq<Token>, t: Token, pos: nat, next: nat)
    requires SpansOk(ts, pos) && pos <= t.start < next && t.kind != Undefined
    requires if t.IsOpen() then t.IsContainer() else t.start <= t.end <= next
    ensures SpansOk(ts + [t], next)
  {}

  /** A new token, at or after the cursor. */
  lemma AddKeeps(js: string, st: State, t: Token, pos: nat)
    requires Inv(js, st) && st.pos <= t.start < pos <= |js|
    requires t.kind != Undefined && t.size == 0
    requires if t.IsOpen() then t.IsContainer() else t.start <= t.end <= pos
    ensures Inv(js, Add(st, t, pos))
  {
    AddCounts(st, t, pos);
    BumpSpans(st.tokens, st.toksuper, st.pos);
    AppendSpans(Bump(st.tokens, st.toksuper), t, st.pos, pos);
  }

  lemma CloseSpans(ts: seq<Token>, i: nat, pos: nat)
    requires SpansOk(ts, pos) && i < |ts| && ts[i].IsOpen()
    requires forall j | i < j < |ts| :: !ts[j].IsOpen()
    ensures SpansOk(ts[i := ts[i].(end := pos + 1)], pos + 1)
  {
    var us := ts[i := ts[i].(end := pos + 1)];
    assert StartsIncrease(us, pos + 1);
    forall j, k | 0 <= j < k < |us| && !us[j].IsOpen()
      ensures us[j].end <= us[k].start || (!us[k].IsOpen() && us[k].end <= us[j].end)
    {
      if j != i {
        assert us[j] == ts[j];
        assert ts[j].end <= ts[k].start || (!ts[k].IsOpen() && ts[k].end <= ts[j].end);
      }
    }
  }

  lemma CloseCounts(ts: seq<Token>, parents: seq<int>, i: nat, end: int)
    requires SizesCount(ts, parents) && i < |ts|
    ensures SizesCount(ts[i := ts[i].(end := end)], parents)
  {
    var us := ts[i := ts[i].(end := end)];
    SumOfSame(us, ts, |ts|);
    forall j | 0 <= j < |us|
      ensures us[j].size == multiset(parents)[j]
    {
      assert us[j].size == ts[j].size;
    }
  }

  /** Closing the last open token keeps the spans nested. */
  lemma CloseAt(js: string, st: State, i: nat, toksuper: int)
    requires Inv(js, st) && st.pos < |js| && i < |st.tokens| && -1 <= toksuper < |st.tokens|
    requires st.tokens[i].IsOpen() && forall j | i < j < |st.tokens| :: !st.tokens[j].IsOpen()
    ensures Inv(js, State(st.pos + 1, toksuper, st.tokens[i := st.tokens[i].(end := st.pos + 1)], st.parents))
  {
    CloseSpans(st.tokens, i, st.pos);
    CloseCounts(st.tokens, st.parents, i, st.pos + 1);
  }

  ghost predicate OutcomeKeeps(js: string, o: Outcome) {
    match o
    case Halt(_) => true
    case Go(next) => Inv(js, next)
  }

  lemma CloseKeeps(js: string, st: State)
    requires Inv(js, st) && st.pos < |js|
    ensures OutcomeKeeps(js, CloseByScan(js, st))
  {
    var i := LastOpen(st.tokens, |st.tokens|);
    LastOpenIsLast(st.tokens, |st.tokens|);
    if CloseByScan(js, st).Go? {
      CloseAt(js, st, i, LastOpen(st.tokens, i));
      assert CloseByScan(js, st).next
             == State(st.pos + 1, LastOpen(st.tokens, i), st.tokens[i := st.tokens[i].(end := st.pos + 1)], st.parents);
    }
  }

  /** Moving the cursor or the superior alone. */
  lemma MoveKeeps(js: string, st: State, pos: nat, toksuper: int)
    requires Inv(js, st) && st.pos <= pos <= |js| && -1 <= toksuper < |st.tokens|
    ensures Inv(js, State(pos, toksuper, st.tokens, st.parents))
  {}

  lemma OpenKeeps(js: string, st: State, cap: nat)
    requires Inv(js, st) && st.pos < |js|
    ensures OutcomeKeeps(js, OpenStep(js, st, cap))
  {
    var next := Add(st, Token(KindOf(js[st.pos]), st.pos, -1, 0), st.pos + 1);
    AddKeeps(js, st, Token(KindOf(js[st.pos]), st.pos, -1, 0), st.pos + 1);
    MoveKeeps(js, next, st.pos + 1, |st.tokens|);
    assert OpenStep(js, st, cap).Go? ==> OpenStep(js, st, cap).next == next.(toksuper := |st.tokens|);
  }

  /** Every turn of the main loop keeps the invariant. */
  lemma StepKeeps(js: string, st: State, cap: nat)
    requires Inv(js, st) && !AtEnd(js, st.pos)
    ensures OutcomeKeeps(js, Step(js, st, cap, BackwardScan))
  {
    var c := js[st.pos];
    if IsOpening(c) {
      OpenKeeps(js, st, cap);
    } else if IsClosing(c) {
      CloseKeeps(js, st);
    } else if c == '\"' {
      StringKeeps(js, st, cap);
    } else if StartsPrimitive(c) {
      PrimitiveKeeps(js, st, cap);
    } else {
      MoveKeeps(js, st, st.pos + 1, st.toksuper);
      MoveKeeps(js, st, st.pos + 1, |st.tokens| - 1);
      MoveKeeps(js, st, st.pos + 1, CommaSuper(st, BackwardScan));
    }
  }

  lemma StringKeeps(js: string, st: State, cap: nat)
    requires Inv(js, st) && st.pos < |js|
    ensures OutcomeKeeps(js, StringStep(js, st, cap))
  {
    if StringStep(js, st, cap).Go? {
      var k := ScanString(js, st.pos + 1).at;
      AddKeeps(js, st, Token(String, st.pos + 1, k, 0), k + 1);
    }
  }

  lemma PrimitiveKeeps(js: string, st: State, cap: nat)
    requires Inv(js, st) && !AtEnd(js, st.pos) && StartsPrimitive(js[st.pos])
    ensures OutcomeKeeps(js, PrimitiveStep(js, st, cap))
  {
    if PrimitiveStep(js, st, cap).Go? {
      var k := ScanPrimitive(js, st.pos).at;
      AddKeeps(js, st, Token(Primitive, st.pos, k, 0), k);
    }
  }

  lemma {:induction false} RunKeeps(js: string, st: State, cap: nat)
    requires Inv(js, st)
    ensures Inv(js, Run(js, st, cap, BackwardScan).0)
    decreases |js| - st.pos
  {
    if !AtEnd(js, st.pos) {
      StepKeeps(js, st, cap);
      match Step(js, st, cap, BackwardScan)
      case Halt(_) =>
      case Go(next) => RunKeeps(js, next, cap);
    }
  }

  lemma InitInv(js: string)
    ensures Inv(js, INIT)
  {}

  /**
   Every fill pass of a new parser, on any text and with any capacity, ends in a state with the
   invariant; if it succeeds, every span is closed, and the sizes fall short of the number of
   tokens by at least one (the tokens without a superior).
   */
  lemma FillInvariant(js: string, cap: nat)
    ensures Inv(js, Fill(js, cap).0)
    ensures Fill(js, cap).1 >= 0 ==> forall i | 0 <= i < |Fill(js, cap).0.tokens| :: !Fill(js, cap).0.tokens[i].IsOpen()
    ensures var ts := Fill(js, cap).0.tokens; ts != [] ==> SumSizes(ts, |ts|) < |ts|
  {
    InitInv(js);
    RunKeeps(js, INIT, cap);
    RunCode(js, INIT, cap);
    LastOpenIsLast(Fill(js, cap).0.tokens, |Fill(js, cap).0.tokens|);
    var st := Fill(js, cap).0;
    if st.tokens != [] {
      assert st.parents[0] == -1;
      assert -1 in multiset(st.parents);
    }
  }

  /** A non-negative result is the number of tokens, all of them closed. */
  lemma {:induction false} RunCode(js: string, st: State, cap: nat)
    requires st.Valid()
    ensures Run(js, st, cap, BackwardScan).1 >= 0 ==>
            var (end, r) := Run(js, st, cap, BackwardScan);
            && r == |end.tokens| && (end.pos >= |js| || js[end.pos] == '\0')
            && LastOpen(end.tokens, |end.tokens|) == -1
    decreases |js| - st.pos
  {
    if !AtEnd(js, st.pos) {
      match Step(js, st, cap, BackwardScan)
      case Halt(_) =>
      case Go(next) => RunCode(js, next, cap);
    }
  }

  // ---------------------------------------------------------------------------
  // Sizes of a part of the tokens
  // ---------------------------------------------------------------------------

  /** How many of some superiors lie from `lo` to below `hi`. */
  ghost function Between(parents: multiset<int>, lo: nat, hi: nat): nat
    requires lo <= hi
    decreases hi
  {
    if hi == lo then 0 else Between(parents, lo, hi - 1) + parents[hi - 1]
  }

  lemma {:induction false} OneMoreBetween(parents: multiset<int>, p: int, lo: nat, hi: nat)
    requires lo <= hi
    ensures Between(parents + multiset{p}, lo, hi) == Between(parents, lo, hi) + (if lo <= p < hi then 1 else 0)
    decreases hi
  {
    if hi != lo {
      OneMoreBetween(parents, p, lo, hi - 1);
    }
  }

  lemma {:induction false} SizesBetween(ts: seq<Token>, parents: seq<int>, lo: nat, hi: nat)
    requires SizesCount(ts, parents) && lo <= hi <= |ts|
    ensures SumSizes(ts, hi) - SumSizes(ts, lo) == Between(multiset(parents), lo, hi)
    decreases hi
  {
    if hi != lo {
      SizesBetween(ts, parents, lo, hi - 1);
    }
  }

  /** Superiors come before their tokens: few of the first `m` tokens have one from `lo` on. */
  lemma {:induction false} FewBetween(parents: seq<int>, m: nat, lo: nat, hi: nat)
    requires m <= |parents| && lo <= hi && forall i | 0 <= i < |parents| :: parents[i] < i
    ensures Between(multiset(parents[..m]), lo, hi) <= if m > lo then m - lo else 0
    decreases m
  {
    if m == 0 {
      NoneBetween(lo, hi);
      assert multiset(parents[..0]) == multiset{};
    } else {
      FewBetween(parents, m - 1, lo, hi);
      assert parents[..m] == parents[..m - 1] + [parents[m - 1]];
      OneMoreBetween(multiset(parents[..m - 1]), parents[m - 1], lo, hi);
    }
  }

  lemma {:induction false} NoneBetween(lo: nat, hi: nat)
    requires lo <= hi
    ensures Between(multiset{}, lo, hi) == 0
    decreases hi
  {
    if hi != lo {
      NoneBetween(lo, hi - 1);
    }
  }

  /** The sizes from token `r` on count tokens behind it only. */
  lemma SizesBehind(ts: seq<Token>, parents: seq<int>, r: nat)
    requires SizesCount(ts, parents) && r <= |ts| && forall i | 0 <= i < |parents| :: -1 <= parents[i] < i
    ensures SumSizes(ts, |ts|) - SumSizes(ts, r) <= |ts| - r
  {
    SizesBetween(ts, parents, r, |ts|);
    FewBetween(parents, |parents|, r, |ts|);
    assert parents[..|parents|] == parents;
  }
}
