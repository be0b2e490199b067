/**
 What jsmn_parse returns, for every text and every capacity: a reference parser with an explicit
 stack of brackets, and what follows for the two passes of json_tokenise and for a parse that is
 resumed after JSMN_ERROR_NOMEM.
 */
module JsmnVerdict {
  import opened JsmnLexing
  import opened JsmnMachine
  import opened RfcTerminals

  // ---------------------------------------------------------------------------
  // The explicit stack
  // ---------------------------------------------------------------------------

  /** The kinds of the open tokens among the first `n`, outermost first. */
  function OpenKinds(ts: seq<Token>, n: nat): seq<Kind>
    requires n <= |ts|
  {
    if n == 0 then []
    else OpenKinds(ts, n - 1) + (if ts[n - 1].IsOpen() then [ts[n - 1].kind] else [])
  }

  /** A parser that keeps a stack instead of tokens, and returns what jsmn_parse returns. */
  function StackRun(js: string, pos: nat, stack: seq<Kind>, made: nat, cap: nat): int
    decreases |js| - pos
  {
    if AtEnd(js, pos) then (if stack != [] then JSMN_ERROR_PART else made)
    else
      var c := js[pos];
      if IsOpening(c) then
        if made >= cap then JSMN_ERROR_NOMEM else StackRun(js, pos + 1, stack + [KindOf(c)], made + 1, cap)
      else if IsClosing(c) then
        if stack == [] || stack[|stack| - 1] != KindOf(c) then JSMN_ERROR_INVAL
        else StackRun(js, pos + 1, stack[..|stack| - 1], made, cap)
      else match CountStep(js, pos)
        case Stop(code) => code
        case Move(next, n) =>
          if n > 0 && made >= cap then JSMN_ERROR_NOMEM else StackRun(js, next, stack, made + n, cap)
  }

  lemma {:induction false} OpenKindsOfSame(ts: seq<Token>, us: seq<Token>, n: nat)
    requires n <= |ts| && n <= |us|
    requires forall i | 0 <= i < n :: ts[i].IsOpen() == us[i].IsOpen() && ts[i].kind == us[i].kind
    ensures OpenKinds(ts, n) == OpenKinds(us, n)
  {
    if n != 0 {
      OpenKindsOfSame(ts, us, n - 1);
    }
  }

  /** The backward scan finds the top of the stack, and finds nothing exactly when the stack is empty. */
  lemma {:induction false} ScanFindsTop(ts: seq<Token>, n: nat)
    requires n <= |ts|
    ensures LastOpen(ts, n) == -1 <==> OpenKinds(ts, n) == []
    ensures var i := LastOpen(ts, n);
            i != -1 ==> OpenKinds(ts, n) == OpenKinds(ts, i) + [ts[i].kind]
  {
    if n != 0 && !ts[n - 1].IsOpen() {
      ScanFindsTop(ts, n - 1);
    }
  }

  lemma AddToStack(st: State, t: Token, pos: nat)
    requires st.Valid()
    ensures var next := Add(st, t, pos).tokens;
            OpenKinds(next, |next|) == OpenKinds(st.tokens, |st.tokens|) + (if t.IsOpen() then [t.kind] else [])
  {
    var next := Add(st, t, pos).tokens;
    OpenKindsOfSame(next, st.tokens, |st.tokens|);
  }

  lemma {:induction false} OpenKindsSkipClosed(ts: seq<Token>, i: nat, n: nat)
    requires i <= n <= |ts| && forall j | i <= j < n :: !ts[j].IsOpen()
    ensures OpenKinds(ts, n) == OpenKinds(ts, i)
  {
    if i < n {
      OpenKindsSkipClosed(ts, i, n - 1);
    }
  }

  lemma ClosePops(js: string, st: State)
    requires st.Valid() && st.pos < |js| && CloseByScan(js, st).Go?
    ensures var next := CloseByScan(js, st).next.tokens;
            var stack := OpenKinds(st.tokens, |st.tokens|);
            stack != [] && OpenKinds(next, |next|) == stack[..|stack| - 1]
  {
    var next := CloseByScan(js, st).next.tokens;
    var i := LastOpen(st.tokens, |st.tokens|);
    ScanFindsTop(st.tokens, |st.tokens|);
    LastOpenIsLast(st.tokens, |st.tokens|);
    OpenKindsSkipClosed(next, i, |next|);
    OpenKindsOfSame(next, st.tokens, i);
  }

  /** Turn by turn, the fill pass moves the cursor as the count pass does, one token for one count. */
  lemma FillFollowsCount(js: string, st: State, cap: nat)
    requires st.Valid() && !AtEnd(js, st.pos)
    ensures match Step(js, st, cap, BackwardScan)
            case Go(next) => CountStep(js, st.pos) == Move(next.pos, |next.tokens| - |st.tokens|)
            case Halt(code) =>
              || CountStep(js, st.pos) == Stop(code)
              || (code == JSMN_ERROR_NOMEM && |st.tokens| >= cap && CountStep(js, st.pos).Move?)
              || (code == JSMN_ERROR_INVAL && IsClosing(js[st.pos]))
  {
    var c := js[st.pos];
    assert !IsOpening(c) && c != '\"' && StartsPrimitive(c) ==> !IsClosing(c) && !IsSpace(c) && c != ':' && c != ',';
  }

  /** A closing bracket is accepted exactly when the stack has the same kind on top. */
  lemma CloseTestsTop(js: string, st: State)
    requires st.Valid() && st.pos < |js|
    ensures var stack := OpenKinds(st.tokens, |st.tokens|);
            CloseByScan(js, st).Go? <==> stack != [] && stack[|stack| - 1] == KindOf(js[st.pos])
  {
    ScanFindsTop(st.tokens, |st.tokens|);
  }

  /** How one turn changes the stack. */
  function StackAfter(c: char, stack: seq<Kind>): seq<Kind>
    requires IsClosing(c) ==> stack != []
  {
    if IsOpening(c) then stack + [KindOf(c)]
    else if IsClosing(c) then stack[..|stack| - 1]
    else stack
  }

  lemma StepStack(js: string, st: State, cap: nat)
    requires st.Valid() && !AtEnd(js, st.pos) && Step(js, st, cap, BackwardScan).Go?
    ensures var next := Step(js, st, cap, BackwardScan).next.tokens;
            var stack := OpenKinds(st.tokens, |st.tokens|);
            (IsClosing(js[st.pos]) ==> stack != []) && OpenKinds(next, |next|) == StackAfter(js[st.pos], stack)
  {
    var c := js[st.pos];
    if IsOpening(c) {
      AddToStack(st, Token(KindOf(c), st.pos, -1, 0), st.pos + 1);
    } else if IsClosing(c) {
      ClosePops(js, st);
    } else if c == '\"' {
      var k := ScanString(js, st.pos + 1).at;
      AddToStack(st, Token(String, st.pos + 1, k, 0), k + 1);
    } else if StartsPrimitive(c) {
      var k := ScanPrimitive(js, st.pos).at;
      AddToStack(st, Token(Primitive, st.pos, k, 0), k);
    }
  }

  lemma HaltAgrees(js: string, st: State, cap: nat)
    requires st.Valid() && !AtEnd(js, st.pos) && Step(js, st, cap, BackwardScan).Halt?
    ensures StackRun(js, st.pos, OpenKinds(st.tokens, |st.tokens|), |st.tokens|, cap)
            == Step(js, st, cap, BackwardScan).code
  {
    if IsClosing(js[st.pos]) {
      CloseTestsTop(js, st);
    }
  }

  lemma GoAgrees(js: string, st: State, cap: nat)
    requires st.Valid() && !AtEnd(js, st.pos) && Step(js, st, cap, BackwardScan).Go?
    ensures var next := Step(js, st, cap, BackwardScan).next;
            StackRun(js, st.pos, OpenKinds(st.tokens, |st.tokens|), |st.tokens|, cap)
            == StackRun(js, next.pos, OpenKinds(next.tokens, |next.tokens|), |next.tokens|, cap)
  {
    StepStack(js, st, cap);
    FillFollowsCount(js, st, cap);
    if IsClosing(js[st.pos]) {
      CloseTestsTop(js, st);
    }
  }

  /** The flat token array with its backward scans returns what the explicit stack returns. */
  lemma {:induction false} RunIsStackRun(js: string, st: State, cap: nat)
    requires st.Valid()
    ensures Run(js, st, cap, BackwardScan).1
            == StackRun(js, st.pos, OpenKinds(st.tokens, |st.tokens|), |st.tokens|, cap)
    decreases |js| - st.pos
  {
    if AtEnd(js, st.pos) {
      ScanFindsTop(st.tokens, |st.tokens|);
    } else {
      match Step(js, st, cap, BackwardScan)
      case Halt(_) => HaltAgrees(js, st, cap);
      case Go(next) =>
        GoAgrees(js, st, cap);
        RunIsStackRun(js, next, cap);
    }
  }

  // ---------------------------------------------------------------------------
  // Brackets, apart from everything else
  // ---------------------------------------------------------------------------

  /** The brackets from `pos` on that are outside strings and primitives. */
  function Brackets(js: string, pos: nat): string
    decreases |js| - pos
  {
    if AtEnd(js, pos) then ""
    else match CountStep(js, pos)
      case Stop(_) => ""
      case Move(next, _) =>
        (if IsOpening(js[pos]) || IsClosing(js[pos]) then [js[pos]] else "") + Brackets(js, next)
  }

  /** What a balance check of brackets says. */
  datatype Balance = Balanced | Mismatched | Unclosed

  function Check(bs: string, stack: seq<Kind>): Balance {
    if bs == "" then (if stack == [] then Balanced else Unclosed)
    else if IsOpening(bs[0]) then Check(bs[1..], stack + [KindOf(bs[0])])
    else if stack == [] || stack[|stack| - 1] != KindOf(bs[0]) then Mismatched
    else Check(bs[1..], stack[..|stack| - 1])
  }

  /** A properly nested sequence of brackets. */
  datatype Forest = Empty | Group(kind: Kind, inner: Forest, rest: Forest)

  function OpeningOf(k: Kind): char {
    if k == Object then '{' else '['
  }

  function ClosingOf(k: Kind): char {
    if k == Object then '}' else ']'
  }

  ghost predicate BracketKinds(f: Forest) {
    f.Group? ==> (f.kind == Object || f.kind == Array) && BracketKinds(f.inner) && BracketKinds(f.rest)
  }

  function Flatten(f: Forest): string {
    match f
    case Empty => ""
    case Group(k, inner, rest) => [OpeningOf(k)] + Flatten(inner) + [ClosingOf(k)] + Flatten(rest)
  }

  lemma GroupTail(o: char, a: string, c: char, b: string, tail: string)
    ensures ([o] + a + [c] + b) + tail == [o] + (a + ([c] + (b + tail)))
  {}

  lemma {:induction false} NestedPasses(f: Forest, tail: string, stack: seq<Kind>)
    requires BracketKinds(f)
    ensures Check(Flatten(f) + tail, stack) == Check(tail, stack)
  {
    match f
    case Empty =>
      assert Flatten(f) + tail == tail;
    case Group(k, inner, rest) =>
      GroupTail(OpeningOf(k), Flatten(inner), ClosingOf(k), Flatten(rest), tail);
      NestedPasses(inner, [ClosingOf(k)] + (Flatten(rest) + tail), stack + [k]);
      assert (stack + [k])[..|stack|] == stack;
      NestedPasses(rest, tail, stack);
  }

  ghost predicate IsBracketString(bs: string) {
    forall i | 0 <= i < |bs| :: IsOpening(bs[i]) || IsClosing(bs[i])
  }

  ghost predicate AreBracketKinds(stack: seq<Kind>) {
    forall i | 0 <= i < |stack| :: stack[i] == Object || stack[i] == Array
  }

  /** `bs` is a forest, then what closes the top of the stack (if there is one), then `left`, which passes below it. */
  ghost predicate Passes(bs: string, stack: seq<Kind>, f: Forest, left: string) {
    && BracketKinds(f) && IsBracketString(left)
    && if stack == [] then bs == Flatten(f)
       else
         && |left| < |bs| && Check(left, stack[..|stack| - 1]) == Balanced
         && bs == Flatten(f) + [ClosingOf(stack[|stack| - 1])] + left
  }

  /** What a passing check has read. */
  lemma {:induction false} PassedIsNested(bs: string, stack: seq<Kind>) returns (f: Forest, left: string)
    requires IsBracketString(bs) && AreBracketKinds(stack) && Check(bs, stack) == Balanced
    ensures Passes(bs, stack, f, left)
    decreases |bs|
  {
    if bs == "" {
      f, left := Empty, "";
    } else if IsOpening(bs[0]) {
      var k := KindOf(bs[0]);
      var inner, after := PassedIsNested(bs[1..], stack + [k]);
      var rest;
      InnerPassed(bs, stack, k, inner, after);
      rest, left := PassedIsNested(after, stack);
      f := Group(k, inner, rest);
      GroupPassed(bs, stack, f, after, left);
    } else {
      f, left := Empty, bs[1..];
      assert bs == Flatten(f) + [bs[0]] + left;
    }
  }

  lemma InnerPassed(bs: string, stack: seq<Kind>, k: Kind, inner: Forest, after: string)
    requires bs != "" && Passes(bs[1..], stack + [k], inner, after)
    ensures |after| < |bs| && Check(after, stack) == Balanced
    ensures bs[1..] == Flatten(inner) + [ClosingOf(k)] + after
  {
    assert (stack + [k])[..|stack|] == stack;
  }

  lemma GroupPassed(bs: string, stack: seq<Kind>, f: Forest, after: string, left: string)
    requires bs != "" && f.Group? && bs[0] == OpeningOf(f.kind) && (f.kind == Object || f.kind == Array)
    requires BracketKinds(f.inner) && bs[1..] == Flatten(f.inner) + [ClosingOf(f.kind)] + after
    requires |after| < |bs| && Passes(after, stack, f.rest, left)
    ensures Passes(bs, stack, f, left)
  {
    if stack == [] {
      assert after == Flatten(f.rest) + "";
      GroupText(bs, f, after, "");
      assert Flatten(f) + "" == Flatten(f);
    } else {
      var c := ClosingOf(stack[|stack| - 1]);
      assert after == Flatten(f.rest) + ([c] + left);
      GroupText(bs, f, after, [c] + left);
      assert bs == Flatten(f) + [c] + left;
    }
  }

  lemma GroupText(bs: string, f: Forest, after: string, left: string)
    requires bs != "" && f.Group? && bs[0] == OpeningOf(f.kind)
    requires bs[1..] == Flatten(f.inner) + [ClosingOf(f.kind)] + after && after == Flatten(f.rest) + left
    ensures bs == Flatten(f) + left
  {
    GroupTail(OpeningOf(f.kind), Flatten(f.inner), ClosingOf(f.kind), Flatten(f.rest), left);
    assert bs == [bs[0]] + bs[1..];
    assert bs[1..] == Flatten(f.inner) + ([ClosingOf(f.kind)] + after);
  }

  lemma NestedIsBalanced(bs: string, f: Forest)
    requires BracketKinds(f) && Flatten(f) == bs
    ensures Check(bs, []) == Balanced
  {
    NestedPasses(f, "", []);
    assert Flatten(f) + "" == bs;
  }

  lemma BalancedIsNested(bs: string) returns (f: Forest)
    requires IsBracketString(bs) && Check(bs, []) == Balanced
    ensures BracketKinds(f) && Flatten(f) == bs
  {
    var left;
    f, left := PassedIsNested(bs, []);
  }

  /** The check passes exactly the sequences that are properly nested and type-matched. */
  lemma BalancedIffNested(bs: string)
    requires IsBracketString(bs)
    ensures Check(bs, []) == Balanced <==> exists f :: BracketKinds(f) && Flatten(f) == bs
  {
    if Check(bs, []) == Balanced {
      var f := BalancedIsNested(bs);
    } else if f :| BracketKinds(f) && Flatten(f) == bs {
      NestedIsBalanced(bs, f);
    }
  }

  lemma {:induction false} BracketsOnly(js: string, pos: nat)
    ensures IsBracketString(Brackets(js, pos))
    decreases |js| - pos
  {
    if !AtEnd(js, pos) {
      match CountStep(js, pos)
      case Stop(_) =>
      case Move(next, _) => BracketsOnly(js, next);
    }
  }

  // ---------------------------------------------------------------------------
  // The two passes
  // ---------------------------------------------------------------------------

  /** A string whose opening quote is at `i` closes at `k`. */
  ghost predicate StringAt(js: string, i: nat, k: nat) {
    i < k < |js| && js[k] == '\"' && StringBody(js[i + 1..k])
  }

  /** What is read of a string whose opening quote is at `i` runs into a bad escape. */
  ghost predicate BadStringAt(js: string, i: nat) {
    exists k | i < k < |js| :: StringBody(js[i + 1..k]) && BadEscape(js, k)
  }

  ghost predicate PrimitiveAt(js: string, i: nat, k: nat) {
    i <= k <= |js| && Separates(js, k) && forall m | i <= m < k :: ' ' < js[m] <= '~' && !Separates(js, m)
  }

  /**
   One turn of the counting pass, on any text, by the characters alone: brackets that open, strings and
   primitives are counted, separators are passed over. A string fails for a bad escape (-2) or because
   the text ends in it (-3), and a primitive for a character that is not printable (-2).
   */
  lemma CountStepExact(js: string, i: nat, k: nat)
    requires i < |js| && js[i] != '\0'
    ensures var c := js[i]; var o := CountStep(js, i);
            if c == '{' || c == '[' then o == Move(i + 1, 1)
            else if IsWhitespace(c) || c == '}' || c == ']' || c == ':' || c == ',' then o == Move(i + 1, 0)
            else if c == '\"' then
              && (o == Move(k + 1, 1) <==> StringAt(js, i, k)) && (o.Move? ==> StringAt(js, i, o.pos - 1))
              && (o == Stop(-2) <==> BadStringAt(js, i)) && (o.Stop? && !BadStringAt(js, i) ==> o.code == -3)
            else
              && (o == Move(k, 1) <==> PrimitiveAt(js, i, k)) && (o.Move? ==> PrimitiveAt(js, i, o.pos))
              && (o.Stop? ==> o.code == -2)
  {
    var c := js[i];
    if c == '\"' {
      StringScanExact(js, i + 1, k);
      StringScanInvalidExact(js, i + 1);
      if CountStep(js, i).Move? {
        StringScanExact(js, i + 1, CountStep(js, i).pos - 1);
      }
    } else if StartsPrimitive(c) {
      PrimitiveScanExact(js, i, k);
      if CountStep(js, i).Move? {
        PrimitiveScanExact(js, i, CountStep(js, i).pos);
      }
    }
  }

  lemma {:induction false} CountGrows(js: string, pos: nat, made: nat)
    ensures CountRun(js, pos, made).1 < 0 || made <= CountRun(js, pos, made).1
    decreases |js| - pos
  {
    if !AtEnd(js, pos) {
      match CountStep(js, pos)
      case Stop(_) =>
      case Move(next, n) => CountGrows(js, next, made + n);
    }
  }

  /** With room for every token, only the brackets decide. */
  lemma {:induction false} StackRunWithRoom(js: string, pos: nat, stack: seq<Kind>, made: nat, cap: nat)
    requires 0 <= CountRun(js, pos, made).1 <= cap
    ensures StackRun(js, pos, stack, made, cap) ==
            match Check(Brackets(js, pos), stack)
            case Balanced => CountRun(js, pos, made).1
            case Mismatched => JSMN_ERROR_INVAL
            case Unclosed => JSMN_ERROR_PART
    decreases |js| - pos
  {
    if !AtEnd(js, pos) {
      var c := js[pos];
      var Move(next, n) := CountStep(js, pos);
      CountGrows(js, next, made + n);
      var bs := Brackets(js, pos);
      if IsOpening(c) {
        assert bs[1..] == Brackets(js, next);
        StackRunWithRoom(js, next, stack + [KindOf(c)], made + n, cap);
      } else if IsClosing(c) {
        assert bs[1..] == Brackets(js, next);
        if stack != [] && stack[|stack| - 1] == KindOf(c) {
          StackRunWithRoom(js, next, stack[..|stack| - 1], made + n, cap);
        }
      } else {
        assert bs == Brackets(js, next);
        StackRunWithRoom(js, next, stack, made + n, cap);
      }
    }
  }

  /** If the count fails, so does the fill, whatever its capacity. */
  lemma {:induction false} StackRunFails(js: string, pos: nat, stack: seq<Kind>, made: nat, cap: nat)
    requires CountRun(js, pos, made).1 < 0
    ensures StackRun(js, pos, stack, made, cap) < 0
    decreases |js| - pos
  {
    if !AtEnd(js, pos) {
      var c := js[pos];
      match CountStep(js, pos)
      case Stop(_) =>
      case Move(next, n) =>
        if IsOpening(c) {
          StackRunFails(js, next, stack + [KindOf(c)], made + n, cap);
        } else if IsClosing(c) {
          if stack != [] {
            StackRunFails(js, next, stack[..|stack| - 1], made + n, cap);
          }
        } else {
          StackRunFails(js, next, stack, made + n, cap);
        }
    }
  }

  /** With too little room the fill does not succeed. */
  lemma {:induction false} StackRunWithoutRoom(js: string, pos: nat, stack: seq<Kind>, made: nat, cap: nat)
    requires made <= cap < CountRun(js, pos, made).1
    ensures StackRun(js, pos, stack, made, cap) < 0
    decreases |js| - pos
  {
    if !AtEnd(js, pos) {
      var c := js[pos];
      var Move(next, n) := CountStep(js, pos);
      if made + n <= cap {
        if IsOpening(c) {
          StackRunWithoutRoom(js, next, stack + [KindOf(c)], made + n, cap);
        } else if IsClosing(c) {
          if stack != [] {
            StackRunWithoutRoom(js, next, stack[..|stack| - 1], made + n, cap);
          }
        } else {
          StackRunWithoutRoom(js, next, stack, made + n, cap);
        }
      }
    }
  }

  /**
   What the fill pass returns when it has room for all the tokens that the count pass found: that
   very count if the brackets balance, and otherwise the error that says how they do not. In
   particular it never runs out of tokens.
   */
  lemma FillAfterCount(js: string, cap: nat)
    requires 0 <= Count(js) <= cap
    ensures Fill(js, cap).1 ==
            match Check(Brackets(js, 0), [])
            case Balanced => Count(js)
            case Mismatched => -2
            case Unclosed => -3
  {
    RunIsStackRun(js, INIT, cap);
    StackRunWithRoom(js, 0, [], 0, cap);
  }

  /**
   The fill pass succeeds if and only if every string and primitive scans, the tokens fit, and the
   brackets outside strings and primitives are properly nested and type-matched.
   */
  lemma FillSucceedsIff(js: string, cap: nat)
    ensures Fill(js, cap).1 >= 0 <==>
            0 <= Count(js) <= cap && exists f :: BracketKinds(f) && Flatten(f) == Brackets(js, 0)
  {
    RunIsStackRun(js, INIT, cap);
    BracketsOnly(js, 0);
    BalancedIffNested(Brackets(js, 0));
    if Count(js) < 0 {
      StackRunFails(js, 0, [], 0, cap);
    } else if cap < Count(js) {
      StackRunWithoutRoom(js, 0, [], 0, cap);
    } else {
      StackRunWithRoom(js, 0, [], 0, cap);
    }
  }

  // ---------------------------------------------------------------------------
  // Resumption
  // ---------------------------------------------------------------------------

  /** Growing the token array changes nothing in a turn that did not run out of tokens. */
  lemma MoreRoom(js: string, st: State, n: nat, m: nat, variant: Variant)
    requires st.Valid() && !AtEnd(js, st.pos) && n <= m
    ensures Step(js, st, n, variant) == Halt(JSMN_ERROR_NOMEM) || Step(js, st, n, variant) == Step(js, st, m, variant)
  {}

  /**
   A parse that stopped with JSMN_ERROR_NOMEM and is called again with the same parser and a larger
   array ends with the same result, tokens and parser as one parse with the larger array.
   */
  lemma {:induction false} Resume(js: string, st: State, n: nat, m: nat, variant: Variant)
    requires st.Valid() && n <= m
    ensures var (stopped, r) := Run(js, st, n, variant);
            if r == -1 then Run(js, stopped, m, variant) == Run(js, st, m, variant)
            else Run(js, st, n, variant) == Run(js, st, m, variant)
    decreases |js| - st.pos
  {
    if !AtEnd(js, st.pos) {
      MoreRoom(js, st, n, m, variant);
      match Step(js, st, n, variant)
      case Halt(_) =>
      case Go(next) => Resume(js, next, n, m, variant);
    }
  }

  lemma {:induction false} RunWithinCap(js: string, st: State, cap: nat, variant: Variant)
    requires st.Valid() && |st.tokens| <= cap
    ensures |Run(js, st, cap, variant).0.tokens| <= cap
    decreases |js| - st.pos
  {
    if !AtEnd(js, st.pos) {
      match Step(js, st, cap, variant)
      case Halt(_) =>
      case Go(next) => RunWithinCap(js, next, cap, variant);
    }
  }
}
