/**
 On every text of RFC 8259 the tokenizer yields the preorder listing of the text's tree, in both
 variants of its bracket and comma rules.
 */
module JsonRoundTrip {
  import opened JsmnLexing
  import opened JsmnMachine
  import JsmnVerdict
  import opened JsonGrammar
  import opened RfcTerminals

  ghost predicate TextAt(js: string, pos: nat, t: string) {
    pos + |t| <= |js| && forall i | 0 <= i < |t| :: js[pos + i] == t[i]
  }

  lemma Split(js: string, pos: nat, a: string, b: string)
    requires TextAt(js, pos, a + b)
    ensures TextAt(js, pos, a) && TextAt(js, pos + |a|, b)
  {
    forall i | 0 <= i < |a|
      ensures js[pos + i] == a[i]
    {
      assert (a + b)[i] == a[i];
    }
    forall i | 0 <= i < |b|
      ensures js[pos + |a| + i] == b[i]
    {
      assert (a + b)[|a| + i] == b[i];
    }
  }

  lemma CharAt(js: string, pos: nat, t: string, i: nat)
    requires TextAt(js, pos, t) && i < |t|
    ensures js[pos + i] == t[i]
  {}

  // ---------------------------------------------------------------------------
  // Runs, piece by piece
  // ---------------------------------------------------------------------------

  ghost predicate EndsIn(js: string, st: State, cap: nat, variant: Variant, end: State, code: int)
    requires st.Valid()
  {
    Run(js, st, cap, variant) == (end, code)
  }

  /** However the run from `b` ends, the run from `a` ends the same way. */
  ghost predicate Reaches(js: string, a: State, b: State, cap: nat, variant: Variant) {
    && a.Valid() && b.Valid()
    && forall end, code :: EndsIn(js, b, cap, variant, end, code) ==> EndsIn(js, a, cap, variant, end, code)
  }

  lemma Chain(js: string, a: State, b: State, c: State, cap: nat, variant: Variant)
    requires Reaches(js, a, b, cap, variant) && Reaches(js, b, c, cap, variant)
    ensures Reaches(js, a, c, cap, variant)
  {}

  /** One turn of the main loop. */
  lemma Turn(js: string, a: State, b: State, cap: nat, variant: Variant)
    requires a.Valid() && !AtEnd(js, a.pos) && Step(js, a, cap, variant) == Go(b)
    ensures Reaches(js, a, b, cap, variant)
  {
    assert Run(js, a, cap, variant) == Run(js, b, cap, variant);
  }

  // ---------------------------------------------------------------------------
  // Whitespace, strings and literals
  // ---------------------------------------------------------------------------

  lemma {:induction false} SpacesRun(js: string, st: State, w: string, cap: nat, variant: Variant)
    requires st.Valid() && TextAt(js, st.pos, w) && Spaces(w)
    ensures Reaches(js, st, st.(pos := st.pos + |w|), cap, variant)
    decreases |w|
  {
    if w == "" {
      assert st.(pos := st.pos + |w|) == st;
    } else {
      CharAt(js, st.pos, w, 0);
      assert w == [w[0]] + w[1..];
      Split(js, st.pos, [w[0]], w[1..]);
      var next := st.(pos := st.pos + 1);
      Turn(js, st, next, cap, variant);
      SpacesRun(js, next, w[1..], cap, variant);
      Chain(js, st, next, st.(pos := st.pos + |w|), cap, variant);
    }
  }

  lemma StringRun(js: string, st: State, raw: string, cap: nat, variant: Variant)
    requires st.Valid() && TextAt(js, st.pos, "\"" + (raw + "\"")) && IsRfcString(raw)
    requires |st.tokens| < cap
    ensures Reaches(js, st, Add(st, Token(String, st.pos + 1, st.pos + 1 + |raw|, 0), st.pos + |raw| + 2), cap, variant)
  {
    Split(js, st.pos, "\"", raw + "\"");
    CharAt(js, st.pos, "\"", 0);
    Split(js, st.pos + 1, raw, "\"");
    CharAt(js, st.pos + 1 + |raw|, "\"", 0);
    assert js[st.pos + 1..st.pos + 1 + |raw|] == raw;
    StringScanExact(js, st.pos + 1, st.pos + 1 + |raw|);
    Turn(js, st, Add(st, Token(String, st.pos + 1, st.pos + 1 + |raw|, 0), st.pos + |raw| + 2), cap, variant);
  }

  /** The characters of a literal are all taken into one primitive. */
  ghost predicate PrimitiveText(t: string) {
    t != "" && StartsPrimitive(t[0]) && forall i | 0 <= i < |t| :: IsPrintable(t[i]) && !EndsPrimitive(t[i])
  }

  lemma PrimitiveTextAppend(a: string, b: string)
    requires PrimitiveText(a) && forall i | 0 <= i < |b| :: IsPrintable(b[i]) && !EndsPrimitive(b[i])
    ensures PrimitiveText(a + b)
  {}

  lemma LiteralIsPrimitive(v: Value)
    requires IsLiteral(v) && WellFormed(v)
    ensures PrimitiveText(LiteralText(v))
  {
    match v
    case Null => 
    case False => 
    case True => 
    case Number(_, _, _, _) => NumberIsPrimitive(v);
  }

  lemma NumberIsPrimitive(v: Value)
    requires v.Number? && WellFormed(v)
    ensures PrimitiveText(LiteralText(v))
  {
    var Number(minus, whole, frac, exp) := v;
    var signed := (if minus then "-" else "") + whole;
    assert PrimitiveText(signed);
    if frac != "" {
      assert frac == [frac[0]] + frac[1..];
    }
    PrimitiveTextAppend(signed, frac);
    ExpIsPrimitive(exp);
    PrimitiveTextAppend(signed + frac, exp);
  }

  lemma ExpIsPrimitive(exp: string)
    requires IsExp(exp)
    ensures forall i | 0 <= i < |exp| :: IsPrintable(exp[i]) && !EndsPrimitive(exp[i])
  {
    if exp != "" {
      assert exp == [exp[0]] + exp[1..];
      assert exp[1..] == [exp[1]] + exp[2..];
    }
  }

  /** A primitive must be followed by a separator or the end of the text. */
  ghost predicate Delimited(js: string, pos: nat) {
    AtEnd(js, pos) || EndsPrimitive(js[pos])
  }

  lemma PrimitiveRun(js: string, st: State, t: string, cap: nat, variant: Variant)
    requires st.Valid() && TextAt(js, st.pos, t) && PrimitiveText(t) && Delimited(js, st.pos + |t|)
    requires |st.tokens| < cap
    ensures Reaches(js, st, Add(st, Token(Primitive, st.pos, st.pos + |t|, 0), st.pos + |t|), cap, variant)
  {
    forall m | st.pos <= m < st.pos + |t|
      ensures IsPrintable(js[m]) && !EndsPrimitive(js[m])
    {
      CharAt(js, st.pos, t, m - st.pos);
    }
    CharAt(js, st.pos, t, 0);
    PrimitiveScanExact(js, st.pos, st.pos + |t|);
    Turn(js, st, Add(st, Token(Primitive, st.pos, st.pos + |t|, 0), st.pos + |t|), cap, variant);
  }

  // ---------------------------------------------------------------------------
  // Brackets and commas
  // ---------------------------------------------------------------------------

  /** Token `e` is the innermost open one, and the superiors of all later tokens lie at `e` or after it. */
  ghost predicate Innermost(st: State, e: nat, kind: Kind) {
    && st.Valid() && e < |st.tokens|
    && st.tokens[e].IsOpen() && st.tokens[e].kind == kind
    && (forall j | e < j < |st.tokens| :: !st.tokens[j].IsOpen() && st.parents[j] >= e)
  }

  lemma InnermostIsLastOpen(st: State, e: nat, kind: Kind)
    requires Innermost(st, e, kind)
    ensures LastOpen(st.tokens, |st.tokens|) == e
    ensures st.tokens[e].IsContainer() ==> LastOpenContainer(st.tokens, |st.tokens|) == e
  {
    LastOpenFrom(st.tokens, e, |st.tokens|);
  }

  lemma {:induction false} LastOpenFrom(ts: seq<Token>, e: nat, n: nat)
    requires e < n <= |ts| && ts[e].IsOpen() && forall j | e < j < n :: !ts[j].IsOpen()
    ensures LastOpen(ts, n) == e
    ensures ts[e].IsContainer() ==> LastOpenContainer(ts, n) == e
  {
    if n - 1 != e {
      LastOpenFrom(ts, e, n - 1);
    }
  }

  lemma {:induction false} WalkReaches(st: State, e: nat, kind: Kind, i: nat)
    requires Innermost(st, e, kind) && e <= i < |st.tokens|
    ensures WalkUp(st.tokens, st.parents, i, kind, st.toksuper) == Found(e)
    decreases i
  {
    if i != e {
      WalkReaches(st, e, kind, st.parents[i]);
    }
  }

  /** The superior after the bracket that closes token `e`. */
  function Outer(st: State, e: nat, variant: Variant): (r: int)
    requires st.Valid() && e < |st.tokens|
    ensures -1 <= r < |st.tokens|
  {
    if variant.BackwardScan? then LastOpen(st.tokens, e) else st.parents[e]
  }

  /**
   The state after the rest of an array or object that token `e` opened: `n` more children are
   counted in it, it is closed before `pos`, and the tokens `more` are listed.
   */
  function Done(st: State, e: nat, n: nat, more: seq<Token>, links: seq<int>, pos: nat, variant: Variant): State
    requires st.Valid() && e < |st.tokens|
  {
    State(pos, Outer(st, e, variant),
          st.tokens[e := st.tokens[e].(size := st.tokens[e].size + n, end := pos)] + more,
          st.parents + links)
  }

  lemma CloseRun(js: string, st: State, e: nat, cap: nat, variant: Variant)
    requires st.pos < |js| && IsClosing(js[st.pos]) && Innermost(st, e, KindOf(js[st.pos]))
    ensures Reaches(js, st, Done(st, e, 0, [], [], st.pos + 1, variant), cap, variant)
  {
    var next := State(st.pos + 1, Outer(st, e, variant), st.tokens[e := st.tokens[e].(end := st.pos + 1)], st.parents);
    assert next == Done(st, e, 0, [], [], st.pos + 1, variant);
    if variant.BackwardScan? {
      InnermostIsLastOpen(st, e, KindOf(js[st.pos]));
      assert CloseByScan(js, st) == Go(next);
    } else {
      WalkReaches(st, e, KindOf(js[st.pos]), |st.tokens| - 1);
      assert CloseByLinks(js, st) == Go(next);
    }
    Turn(js, st, next, cap, variant);
  }

  /** Tokens listed under `e` since `st` do not change what closing `e` leads to. */
  lemma DoneAfter(st: State, st': State, e: nat, ts: seq<Token>, ps: seq<int>,
                  n: nat, more: seq<Token>, links: seq<int>, pos: nat, variant: Variant)
    requires st.Valid() && st'.Valid() && e < |st.tokens|
    requires st'.tokens == Bump(st.tokens, e) + ts && st'.parents == st.parents + ps
    ensures Done(st', e, n, more, links, pos, variant) == Done(st, e, n + 1, ts + more, ps + links, pos, variant)
  {
    LastOpenDependsOnPrefix(st.tokens, st'.tokens, e);
    var a := Done(st', e, n, more, links, pos, variant);
    var b := Done(st, e, n + 1, ts + more, ps + links, pos, variant);
    assert a.tokens == b.tokens;
    assert a.parents == b.parents;
  }

  lemma InnermostAfter(st: State, st': State, e: nat, kind: Kind, ts: seq<Token>, ps: seq<int>)
    requires Innermost(st, e, kind) && st'.Valid()
    requires st'.tokens == Bump(st.tokens, e) + ts && st'.parents == st.parents + ps
    requires forall i | 0 <= i < |ts| :: ts[i].end >= 0
    requires forall i | 0 <= i < |ps| :: ps[i] >= e
    ensures Innermost(st', e, kind)
  {
    forall j | e < j < |st'.tokens|
      ensures !st'.tokens[j].IsOpen() && st'.parents[j] >= e
    {
      if j < |st.tokens| {
        assert st'.tokens[j] == st.tokens[j] && st'.parents[j] == st.parents[j];
      } else {
        assert st'.tokens[j] == ts[j - |st.tokens|] && st'.parents[j] == ps[j - |st.tokens|];
      }
    }
  }

  lemma CommaRun(js: string, st: State, e: nat, kind: Kind, cap: nat, variant: Variant)
    requires st.pos < |js| && js[st.pos] == ',' && Innermost(st, e, kind) && st.tokens[e].IsContainer()
    requires st.toksuper == e || (e < st.toksuper && !st.tokens[st.toksuper].IsContainer() && st.parents[st.toksuper] == e)
    ensures Reaches(js, st, st.(pos := st.pos + 1, toksuper := e), cap, variant)
  {
    InnermostIsLastOpen(st, e, kind);
    assert CommaSuper(st, variant) == e;
    Turn(js, st, st.(pos := st.pos + 1, toksuper := e), cap, variant);
  }

  // ---------------------------------------------------------------------------
  // Values
  // ---------------------------------------------------------------------------

  /** The state after a value: its tokens are listed and counted in the superior. */
  function After(v: Value, st: State, variant: Variant): (r: State)
    requires st.Valid()
    ensures r.Valid()
  {
    State(st.pos + |Text(v)|,
          if !IsLiteral(v) && !v.Str? && variant.BackwardScan? then LastOpen(st.tokens, |st.tokens|) else st.toksuper,
          Bump(st.tokens, st.toksuper) + Tokens(v, st.pos),
          st.parents + Parents(v, |st.tokens|, st.toksuper))
  }

  lemma LeafRun(js: string, v: Value, st: State, cap: nat, variant: Variant)
    requires (IsLiteral(v) || v.Str?) && WellFormed(v) && st.Valid() && TextAt(js, st.pos, Text(v))
    requires IsLiteral(v) ==> Delimited(js, st.pos + |Text(v)|)
    requires |st.tokens| < cap
    ensures Reaches(js, st, After(v, st, variant), cap, variant)
  {
    if v.Str? {
      StringRun(js, st, v.raw, cap, variant);
    } else {
      LiteralIsPrimitive(v);
      PrimitiveRun(js, st, LiteralText(v), cap, variant);
    }
  }

  lemma DelimitedBy(js: string, pos: nat, text: string, after: string, tail: string)
    requires TextAt(js, pos, text + (after + tail)) && tail != ""
    requires tail[0] == ',' || tail[0] == ']' || tail[0] == '}'
    ensures Delimited(js, pos + |text| + |after|)
  {
    Split(js, pos, text, after + tail);
    Split(js, pos + |text|, after, tail);
    CharAt(js, pos + |text| + |after|, tail, 0);
  }

  /** Every value: the run goes on as if its tokens had been there from the start. */
  lemma {:induction false} ValueRun(js: string, v: Value, st: State, cap: nat, variant: Variant)
    requires WellFormed(v) && st.Valid() && TextAt(js, st.pos, Text(v))
    requires IsLiteral(v) ==> Delimited(js, st.pos + |Text(v)|)
    requires |st.tokens| + Nodes(v) <= cap
    ensures Reaches(js, st, After(v, st, variant), cap, variant)
    decreases v, 2
  {
    match v
    case Arr(pad, items) => ArrayRun(js, v, st, cap, variant);
    case Obj(pad, members) => ObjectRun(js, v, st, cap, variant);
    case _ => LeafRun(js, v, st, cap, variant);
  }

  lemma {:induction false} ArrayRun(js: string, v: Value, st: State, cap: nat, variant: Variant)
    requires v.Arr? && WellFormed(v) && st.Valid() && TextAt(js, st.pos, Text(v))
    requires |st.tokens| + Nodes(v) <= cap
    ensures Reaches(js, st, After(v, st, variant), cap, variant)
    decreases v, 1
  {
    var e := |st.tokens|;
    var next := OpenRun(js, st, '[', ArrayRest(v), cap, variant);
    var done := Done(next, e, ItemCount(v.items), ItemTokens(v.items, next.pos), ItemParents(v.items, e + 1, e),
                     next.pos + |ArrayRest(v)|, variant);
    ArrayRestRun(js, v, next, e, cap, variant);
    AfterIsDone(v, st, next, ItemCount(v.items), ItemTokens(v.items, next.pos), ItemParents(v.items, e + 1, e), variant);
    Chain(js, st, next, done, cap, variant);
  }

  lemma {:induction false} ArrayRestRun(js: string, v: Value, st: State, e: nat, cap: nat, variant: Variant)
    requires v.Arr? && WellFormed(v) && TextAt(js, st.pos, ArrayRest(v))
    requires Innermost(st, e, Array) && st.toksuper == e && |st.tokens| + ItemNodes(v.items) <= cap
    ensures Reaches(js, st, Done(st, e, ItemCount(v.items), ItemTokens(v.items, st.pos),
                                 ItemParents(v.items, |st.tokens|, e), st.pos + |ArrayRest(v)|, variant), cap, variant)
    decreases v, 0
  {
    var done := Done(st, e, ItemCount(v.items), ItemTokens(v.items, st.pos),
                     ItemParents(v.items, |st.tokens|, e), st.pos + |ArrayRest(v)|, variant);
    if v.items.NoItem? {
      EmptyRun(js, st, e, v.pad, "]", cap, variant);
      assert done == Done(st, e, 0, [], [], st.pos + |v.pad| + 1, variant);
    } else {
      ItemsRun(js, v.items, st, e, cap, variant);
      assert done == DoneItems(v.items, st, e, variant);
    }
  }

  lemma {:induction false} ObjectRun(js: string, v: Value, st: State, cap: nat, variant: Variant)
    requires v.Obj? && WellFormed(v) && st.Valid() && TextAt(js, st.pos, Text(v))
    requires |st.tokens| + Nodes(v) <= cap
    ensures Reaches(js, st, After(v, st, variant), cap, variant)
    decreases v, 1
  {
    var e := |st.tokens|;
    var next := OpenRun(js, st, '{', ObjectRest(v), cap, variant);
    var done := Done(next, e, MemberCount(v.members), MemberTokens(v.members, next.pos), MemberParents(v.members, e + 1, e),
                     next.pos + |ObjectRest(v)|, variant);
    ObjectRestRun(js, v, next, e, cap, variant);
    AfterIsDone(v, st, next, MemberCount(v.members), MemberTokens(v.members, next.pos),
                MemberParents(v.members, e + 1, e), variant);
    Chain(js, st, next, done, cap, variant);
  }

  lemma {:induction false} ObjectRestRun(js: string, v: Value, st: State, e: nat, cap: nat, variant: Variant)
    requires v.Obj? && WellFormed(v) && TextAt(js, st.pos, ObjectRest(v))
    requires Innermost(st, e, Object) && st.toksuper == e && |st.tokens| + MemberNodes(v.members) <= cap
    ensures Reaches(js, st, Done(st, e, MemberCount(v.members), MemberTokens(v.members, st.pos),
                                 MemberParents(v.members, |st.tokens|, e), st.pos + |ObjectRest(v)|, variant), cap, variant)
    decreases v, 0
  {
    var done := Done(st, e, MemberCount(v.members), MemberTokens(v.members, st.pos),
                     MemberParents(v.members, |st.tokens|, e), st.pos + |ObjectRest(v)|, variant);
    if v.members.NoMember? {
      EmptyRun(js, st, e, v.pad, "}", cap, variant);
      assert done == Done(st, e, 0, [], [], st.pos + |v.pad| + 1, variant);
    } else {
      MembersRun(js, v.members, st, e, cap, variant);
      assert done == DoneMembers(v.members, st, e, variant);
    }
  }

  lemma PaddedText(js: string, pos: nat, text: string, after: string, tail: string)
    requires TextAt(js, pos, text + (after + tail)) && Spaces(after)
    requires Delimited(js, pos + |text| + |after|)
    ensures TextAt(js, pos, text) && TextAt(js, pos + |text|, after) && TextAt(js, pos + |text| + |after|, tail)
    ensures Delimited(js, pos + |text|)
  {
    Split(js, pos, text, after + tail);
    Split(js, pos + |text|, after, tail);
    if after != "" {
      CharAt(js, pos + |text|, after, 0);
    }
  }

  /** A value and the whitespace after it. */
  lemma {:induction false} PaddedRun(js: string, v: Value, st: State, after: string, tail: string, cap: nat, variant: Variant)
    requires WellFormed(v) && st.Valid() && TextAt(js, st.pos, Text(v) + (after + tail)) && Spaces(after)
    requires Delimited(js, st.pos + |Text(v)| + |after|) && |st.tokens| + Nodes(v) <= cap
    ensures var next := After(v, st, variant).(pos := st.pos + |Text(v)| + |after|);
            next.Valid() && TextAt(js, next.pos, tail) && Reaches(js, st, next, cap, variant)
    decreases v, 3
  {
    PaddedText(js, st.pos, Text(v), after, tail);
    ValueRun(js, v, st, cap, variant);
    var mid := After(v, st, variant);
    SpacesRun(js, mid, after, cap, variant);
    Chain(js, st, mid, mid.(pos := mid.pos + |after|), cap, variant);
  }

  /** The opening bracket of an array or object. */
  lemma OpenRun(js: string, st: State, bracket: char, rest: string, cap: nat, variant: Variant) returns (next: State)
    requires st.Valid() && IsOpening(bracket) && TextAt(js, st.pos, [bracket] + rest) && |st.tokens| < cap
    ensures next == Add(st, Token(KindOf(bracket), st.pos, -1, 0), st.pos + 1).(toksuper := |st.tokens|)
    ensures Innermost(next, |st.tokens|, KindOf(bracket)) && TextAt(js, next.pos, rest)
    ensures Reaches(js, st, next, cap, variant)
  {
    next := Add(st, Token(KindOf(bracket), st.pos, -1, 0), st.pos + 1).(toksuper := |st.tokens|);
    Split(js, st.pos, [bracket], rest);
    CharAt(js, st.pos, [bracket], 0);
    Turn(js, st, next, cap, variant);
  }

  lemma EmptyRun(js: string, st: State, e: nat, pad: string, bracket: string, cap: nat, variant: Variant)
    requires |bracket| == 1 && IsClosing(bracket[0]) && Innermost(st, e, KindOf(bracket[0]))
    requires TextAt(js, st.pos, pad + bracket) && Spaces(pad)
    ensures Reaches(js, st, Done(st, e, 0, [], [], st.pos + |pad| + 1, variant), cap, variant)
  {
    Split(js, st.pos, pad, bracket);
    CharAt(js, st.pos + |pad|, bracket, 0);
    var next := st.(pos := st.pos + |pad|);
    SpacesRun(js, st, pad, cap, variant);
    CloseRun(js, next, e, cap, variant);
    Chain(js, st, next, Done(st, e, 0, [], [], st.pos + |pad| + 1, variant), cap, variant);
  }

  lemma AfterIsDone(v: Value, st: State, next: State, n: nat, more: seq<Token>, links: seq<int>, variant: Variant)
    requires st.Valid() && (v.Arr? || v.Obj?)
    requires var kind := if v.Arr? then Array else Object;
             && next == Add(st, Token(kind, st.pos, -1, 0), st.pos + 1).(toksuper := |st.tokens|)
             && Tokens(v, st.pos) == [Token(kind, st.pos, st.pos + |Text(v)|, n)] + more
    requires Parents(v, |st.tokens|, st.toksuper) == [st.toksuper] + links
    ensures Done(next, |st.tokens|, n, more, links, st.pos + |Text(v)|, variant) == After(v, st, variant)
  {
    var d := Done(next, |st.tokens|, n, more, links, st.pos + |Text(v)|, variant);
    LastOpenDependsOnPrefix(next.tokens, st.tokens, |st.tokens|);
    assert d.tokens == After(v, st, variant).tokens;
    assert d.parents == After(v, st, variant).parents;
  }

  /** One element and the whitespace around it. */
  lemma {:induction false} ItemRun(js: string, items: Items, st: State, e: nat, tail: string, cap: nat, variant: Variant)
      returns (next: State)
    requires items.Item? && WellFormedItems(items)
    requires TextAt(js, st.pos, items.before + (Text(items.value) + (items.after + tail)))
    requires tail != "" && (tail[0] == ',' || tail[0] == ']')
    requires Innermost(st, e, Array) && st.toksuper == e && |st.tokens| + Nodes(items.value) <= cap
    ensures next == State(st.pos + |items.before| + |Text(items.value)| + |items.after|, e,
                          Bump(st.tokens, e) + Tokens(items.value, st.pos + |items.before|),
                          st.parents + Parents(items.value, |st.tokens|, e))
    ensures Innermost(next, e, Array) && TextAt(js, next.pos, tail)
    ensures Reaches(js, st, next, cap, variant)
    decreases items, 0
  {
    var Item(before, value, after, rest) := items;
    var start := st.(pos := st.pos + |before|);
    Split(js, st.pos, before, Text(value) + (after + tail));
    DelimitedBy(js, start.pos, Text(value), after, tail);
    SpacesRun(js, st, before, cap, variant);
    PaddedRun(js, value, start, after, tail, cap, variant);
    InnermostIsLastOpen(st, e, Array);
    next := After(value, start, variant).(pos := start.pos + |Text(value)| + |after|);
    Chain(js, st, start, next, cap, variant);
    InnermostAfter(st, next, e, Array, Tokens(value, start.pos), Parents(value, |st.tokens|, e));
  }

  function DoneItems(items: Items, st: State, e: nat, variant: Variant): State
    requires items.Item? && st.Valid() && e < |st.tokens|
  {
    Done(st, e, ItemCount(items), ItemTokens(items, st.pos), ItemParents(items, |st.tokens|, e),
         st.pos + |ItemsText(items)|, variant)
  }

  lemma DoneLastItem(items: Items, st: State, next: State, e: nat, variant: Variant)
    requires items.Item? && items.rest.NoItem? && st.Valid() && next.Valid() && e < |st.tokens|
    requires next.pos == st.pos + |items.before| + |Text(items.value)| + |items.after|
    requires next.tokens == Bump(st.tokens, e) + Tokens(items.value, st.pos + |items.before|)
    requires next.parents == st.parents + Parents(items.value, |st.tokens|, e)
    ensures Done(next, e, 0, [], [], next.pos + 1, variant) == DoneItems(items, st, e, variant)
  {
    DoneAfter(st, next, e, Tokens(items.value, st.pos + |items.before|), Parents(items.value, |st.tokens|, e),
              0, [], [], next.pos + 1, variant);
    assert ItemsTail(items.rest) == "]" && next.pos + 1 == st.pos + |ItemsText(items)|;
    assert ItemCount(items.rest) == 0 && ItemCount(items) == 1;
    assert ItemTokens(items, st.pos) == Tokens(items.value, st.pos + |items.before|) + [];
    assert ItemParents(items, |st.tokens|, e) == Parents(items.value, |st.tokens|, e) + [];
  }

  lemma DoneMoreItems(items: Items, st: State, next: State, e: nat, variant: Variant)
    requires items.Item? && items.rest.Item? && st.Valid() && next.Valid() && e < |st.tokens|
    requires next.pos == st.pos + |items.before| + |Text(items.value)| + |items.after| + 1
    requires next.tokens == Bump(st.tokens, e) + Tokens(items.value, st.pos + |items.before|)
    requires next.parents == st.parents + Parents(items.value, |st.tokens|, e)
    ensures DoneItems(items.rest, next, e, variant) == DoneItems(items, st, e, variant)
  {
    var rest := items.rest;
    DoneAfter(st, next, e, Tokens(items.value, st.pos + |items.before|), Parents(items.value, |st.tokens|, e),
              ItemCount(rest), ItemTokens(rest, next.pos), ItemParents(rest, |next.tokens|, e),
              next.pos + |ItemsText(rest)|, variant);
    assert next.pos + |ItemsText(rest)| == st.pos + |ItemsText(items)|;
    assert ItemTokens(items, st.pos) == Tokens(items.value, st.pos + |items.before|) + ItemTokens(rest, next.pos);
    assert ItemParents(items, |st.tokens|, e) == Parents(items.value, |st.tokens|, e) + ItemParents(rest, |next.tokens|, e);
  }

  lemma {:induction false} ItemsRun(js: string, items: Items, st: State, e: nat, cap: nat, variant: Variant)
    requires items.Item? && WellFormedItems(items) && TextAt(js, st.pos, ItemsText(items))
    requires Innermost(st, e, Array) && st.toksuper == e && |st.tokens| + ItemNodes(items) <= cap
    ensures Reaches(js, st, DoneItems(items, st, e, variant), cap, variant)
    decreases items, 1
  {
    var next := ItemRun(js, items, st, e, ItemsTail(items.rest), cap, variant);
    if items.rest.NoItem? {
      CloseRun(js, next, e, cap, variant);
      DoneLastItem(items, st, next, e, variant);
      Chain(js, st, next, DoneItems(items, st, e, variant), cap, variant);
    } else {
      var again := next.(pos := next.pos + 1, toksuper := e);
      CommaRun(js, next, e, Array, cap, variant);
      Chain(js, st, next, again, cap, variant);
      Split(js, next.pos, ",", ItemsText(items.rest));
      ItemsRun(js, items.rest, again, e, cap, variant);
      DoneMoreItems(items, st, again, e, variant);
      Chain(js, st, again, DoneItems(items, st, e, variant), cap, variant);
    }
  }

  lemma Quoted(key: string, more: string)
    ensures "\"" + (key + ("\"" + more)) == ("\"" + (key + "\"")) + more
  {}

  /** From the start of a member to the end of its key. */
  lemma KeyRun(js: string, m: Members, st: State, e: nat, more: string, cap: nat, variant: Variant)
    requires m.Member? && Spaces(m.before) && IsRfcString(m.key)
    requires TextAt(js, st.pos, m.before + ("\"" + (m.key + ("\"" + more))))
    requires Innermost(st, e, Object) && st.toksuper == e && |st.tokens| < cap
    ensures var next := Add(st, KeyToken(m, st.pos, 0), st.pos + |m.before| + |m.key| + 2);
            TextAt(js, next.pos, more) && Reaches(js, st, next, cap, variant)
  {
    var quoted := "\"" + (m.key + "\"");
    Quoted(m.key, more);
    Split(js, st.pos, m.before, quoted + more);
    var start := st.(pos := st.pos + |m.before|);
    Split(js, start.pos, quoted, more);
    SpacesRun(js, st, m.before, cap, variant);
    StringRun(js, start, m.key, cap, variant);
    Chain(js, st, start, Add(st, KeyToken(m, st.pos, 0), st.pos + |m.before| + |m.key| + 2), cap, variant);
  }

  /** From the end of a key, over the colon, to the value. */
  lemma ColonRun(js: string, st: State, gap: string, lead: string, more: string, cap: nat, variant: Variant)
    requires st.Valid() && Spaces(gap) && Spaces(lead) && TextAt(js, st.pos, gap + (":" + (lead + more)))
    ensures var next := st.(pos := st.pos + |gap| + 1 + |lead|, toksuper := |st.tokens| - 1);
            TextAt(js, next.pos, more) && Reaches(js, st, next, cap, variant)
  {
    Split(js, st.pos, gap, ":" + (lead + more));
    SpacesRun(js, st, gap, cap, variant);
    var colon := st.(pos := st.pos + |gap|);
    Split(js, colon.pos, ":", lead + more);
    CharAt(js, colon.pos, ":", 0);
    var value := colon.(pos := colon.pos + 1, toksuper := |st.tokens| - 1);
    Turn(js, colon, value, cap, variant);
    Chain(js, st, colon, value, cap, variant);
    Split(js, value.pos, lead, more);
    SpacesRun(js, value, lead, cap, variant);
    Chain(js, st, value, value.(pos := value.pos + |lead|), cap, variant);
  }

  /** The key's one value is counted in the key. */
  lemma MemberAfter(m: Members, st: State, e: nat, key: State, variant: Variant)
    requires m.Member? && Innermost(st, e, Object) && key.Valid()
    requires key == State(ValueStart(m, st.pos), |st.tokens|, Bump(st.tokens, e) + [KeyToken(m, st.pos, 0)], st.parents + [e])
    ensures var mid := After(m.value, key, variant);
            && mid.tokens == Bump(st.tokens, e) + ([KeyToken(m, st.pos, 1)] + Tokens(m.value, key.pos))
            && mid.parents == st.parents + ([e] + Parents(m.value, |st.tokens| + 1, |st.tokens|))
            && (mid.toksuper == e || mid.toksuper == |st.tokens|)
  {
    var mid := After(m.value, key, variant);
    assert Bump(key.tokens, key.toksuper) == Bump(st.tokens, e) + [KeyToken(m, st.pos, 1)];
    assert mid.tokens == Bump(st.tokens, e) + ([KeyToken(m, st.pos, 1)] + Tokens(m.value, key.pos));
    assert mid.parents == st.parents + ([e] + Parents(m.value, |st.tokens| + 1, |st.tokens|));
    InnermostAfter(st, key, e, Object, [KeyToken(m, st.pos, 0)], [e]);
    InnermostIsLastOpen(key, e, Object);
  }

  /** The tokens of one member: the key, which has one value, and the value. */
  function PairTokens(m: Members, pos: nat): seq<Token>
    requires m.Member?
  {
    [KeyToken(m, pos, 1)] + Tokens(m.value, ValueStart(m, pos))
  }

  function PairParents(m: Members, base: nat, owner: nat): seq<int>
    requires m.Member? && owner < base
  {
    [owner] + Parents(m.value, base + 1, base)
  }

  /** From the start of a member to its value. */
  lemma NameRun(js: string, m: Members, st: State, e: nat, more: string, cap: nat, variant: Variant) returns (key: State)
    requires m.Member? && WellFormedMembers(m)
    requires TextAt(js, st.pos, NameText(m, more))
    requires Innermost(st, e, Object) && st.toksuper == e && |st.tokens| < cap
    ensures key == State(ValueStart(m, st.pos), |st.tokens|, Bump(st.tokens, e) + [KeyToken(m, st.pos, 0)], st.parents + [e])
    ensures key.Valid() && TextAt(js, key.pos, more)
    ensures Reaches(js, st, key, cap, variant)
  {
    KeyRun(js, m, st, e, m.gap + (":" + (m.lead + more)), cap, variant);
    var named := Add(st, KeyToken(m, st.pos, 0), st.pos + |m.before| + |m.key| + 2);
    ColonRun(js, named, m.gap, m.lead, more, cap, variant);
    key := named.(pos := ValueStart(m, st.pos), toksuper := |st.tokens|);
    Chain(js, st, named, key, cap, variant);
  }

  /** One member and the whitespace around it. */
  lemma {:induction false} MemberRun(js: string, m: Members, st: State, e: nat, tail: string, cap: nat, variant: Variant)
      returns (next: State)
    requires m.Member? && WellFormedMembers(m)
    requires TextAt(js, st.pos, NameText(m, Text(m.value) + (m.after + tail)))
    requires tail != "" && (tail[0] == ',' || tail[0] == '}')
    requires Innermost(st, e, Object) && st.toksuper == e && |st.tokens| + 1 + Nodes(m.value) <= cap
    ensures next.pos == ValueStart(m, st.pos) + |Text(m.value)| + |m.after|
    ensures next.tokens == Bump(st.tokens, e) + PairTokens(m, st.pos)
    ensures next.parents == st.parents + PairParents(m, |st.tokens|, e)
    ensures next.toksuper == e || next.toksuper == |st.tokens|
    ensures Innermost(next, e, Object) && TextAt(js, next.pos, tail)
    ensures Reaches(js, st, next, cap, variant)
    decreases m, 0
  {
    var key := NameRun(js, m, st, e, Text(m.value) + (m.after + tail), cap, variant);
    DelimitedBy(js, key.pos, Text(m.value), m.after, tail);
    PaddedRun(js, m.value, key, m.after, tail, cap, variant);
    MemberAfter(m, st, e, key, variant);
    next := After(m.value, key, variant).(pos := key.pos + |Text(m.value)| + |m.after|);
    Chain(js, st, key, next, cap, variant);
    PairInnermost(m, st, next, e);
  }

  /** The object stays the innermost open token over a member. */
  lemma PairInnermost(m: Members, st: State, next: State, e: nat)
    requires m.Member? && Innermost(st, e, Object) && next.Valid()
    requires next.tokens == Bump(st.tokens, e) + PairTokens(m, st.pos)
    requires next.parents == st.parents + PairParents(m, |st.tokens|, e)
    ensures Innermost(next, e, Object)
  {
    var ts, ps := PairTokens(m, st.pos), PairParents(m, |st.tokens|, e);
    assert forall i | 0 <= i < |ts| :: ts[i].end >= 0;
    assert forall i | 0 <= i < |ps| :: ps[i] >= e;
    InnermostAfter(st, next, e, Object, ts, ps);
  }

  function DoneMembers(m: Members, st: State, e: nat, variant: Variant): State
    requires m.Member? && st.Valid() && e < |st.tokens|
  {
    Done(st, e, MemberCount(m), MemberTokens(m, st.pos), MemberParents(m, |st.tokens|, e),
         st.pos + |MembersText(m)|, variant)
  }

  lemma DoneLastMember(m: Members, st: State, next: State, e: nat, variant: Variant)
    requires m.Member? && m.rest.NoMember? && st.Valid() && next.Valid() && e < |st.tokens|
    requires next.pos == ValueStart(m, st.pos) + |Text(m.value)| + |m.after|
    requires next.tokens == Bump(st.tokens, e) + PairTokens(m, st.pos)
    requires next.parents == st.parents + PairParents(m, |st.tokens|, e)
    ensures Done(next, e, 0, [], [], next.pos + 1, variant) == DoneMembers(m, st, e, variant)
  {
    DoneAfter(st, next, e, PairTokens(m, st.pos), PairParents(m, |st.tokens|, e), 0, [], [], next.pos + 1, variant);
    assert MembersTail(m.rest) == "}" && next.pos + 1 == st.pos + |MembersText(m)|;
    assert MemberCount(m.rest) == 0 && MemberCount(m) == 1;
    assert MemberTokens(m, st.pos) == PairTokens(m, st.pos) + [];
    assert MemberParents(m, |st.tokens|, e) == PairParents(m, |st.tokens|, e) + [];
  }

  lemma DoneMoreMembers(m: Members, st: State, next: State, e: nat, variant: Variant)
    requires m.Member? && m.rest.Member? && st.Valid() && next.Valid() && e < |st.tokens|
    requires next.pos == ValueStart(m, st.pos) + |Text(m.value)| + |m.after| + 1
    requires next.tokens == Bump(st.tokens, e) + PairTokens(m, st.pos)
    requires next.parents == st.parents + PairParents(m, |st.tokens|, e)
    ensures DoneMembers(m.rest, next, e, variant) == DoneMembers(m, st, e, variant)
  {
    DoneAfter(st, next, e, PairTokens(m, st.pos), PairParents(m, |st.tokens|, e),
              MemberCount(m.rest), MemberTokens(m.rest, next.pos), MemberParents(m.rest, |next.tokens|, e),
              next.pos + |MembersText(m.rest)|, variant);
    assert next.pos + |MembersText(m.rest)| == st.pos + |MembersText(m)|;
    assert MemberTokens(m, st.pos) == PairTokens(m, st.pos) + MemberTokens(m.rest, next.pos);
    assert MemberParents(m, |st.tokens|, e) == PairParents(m, |st.tokens|, e) + MemberParents(m.rest, |next.tokens|, e);
  }

  lemma {:induction false} MembersRun(js: string, m: Members, st: State, e: nat, cap: nat, variant: Variant)
    requires m.Member? && WellFormedMembers(m) && TextAt(js, st.pos, MembersText(m))
    requires Innermost(st, e, Object) && st.toksuper == e && |st.tokens| + MemberNodes(m) <= cap
    ensures Reaches(js, st, DoneMembers(m, st, e, variant), cap, variant)
    decreases m, 1
  {
    var next := MemberRun(js, m, st, e, MembersTail(m.rest), cap, variant);
    if m.rest.NoMember? {
      CloseRun(js, next, e, cap, variant);
      DoneLastMember(m, st, next, e, variant);
      Chain(js, st, next, DoneMembers(m, st, e, variant), cap, variant);
    } else {
      var again := next.(pos := next.pos + 1, toksuper := e);
      CommaRun(js, next, e, Object, cap, variant);
      Chain(js, st, next, again, cap, variant);
      Split(js, next.pos, ",", MembersText(m.rest));
      MembersRun(js, m.rest, again, e, cap, variant);
      DoneMoreMembers(m, st, again, e, variant);
      Chain(js, st, again, DoneMembers(m, st, e, variant), cap, variant);
    }
  }

  // ---------------------------------------------------------------------------
  // Whole texts
  // ---------------------------------------------------------------------------

  /**
   For every JSON text, with any legal whitespace, and every capacity that suffices, the fill pass
   reads the whole text, returns the number of nodes of its tree, and leaves exactly the preorder
   listing of that tree, in both variants.
   */
  lemma TextRoundTrip(v: Value, lead: string, trail: string, cap: nat, variant: Variant)
    requires WellFormed(v) && Spaces(lead) && Spaces(trail) && Nodes(v) <= cap
    ensures var js := lead + Text(v) + trail;
            Run(js, INIT, cap, variant) == (State(|js|, -1, Tokens(v, |lead|), Parents(v, 0, -1)), Nodes(v))
  {
    var js := lead + Text(v) + trail;
    var end := State(|js|, -1, Tokens(v, |lead|), Parents(v, 0, -1));
    Whole(js, lead, Text(v), trail);
    WholeRun(js, v, lead, trail, cap, variant);
    AfterStart(v, INIT.(pos := |lead|), variant);
    NothingOpen(end.tokens, |end.tokens|);
    assert EndsIn(js, end, cap, variant, end, Nodes(v));
    assert EndsIn(js, INIT, cap, variant, end, Nodes(v));
  }

  lemma OnlyMemoryFails(v: Value, lead: string, trail: string, cap: nat, variant: Variant)
    requires WellFormed(v) && Spaces(lead) && Spaces(trail) && cap < Nodes(v)
    ensures Run(lead + Text(v) + trail, INIT, cap, variant).1 == JSMN_ERROR_NOMEM
  {
    var js := lead + Text(v) + trail;
    TextRoundTrip(v, lead, trail, Nodes(v), variant);
    JsmnVerdict.Resume(js, INIT, cap, Nodes(v), variant);
    JsmnVerdict.RunWithinCap(js, INIT, cap, variant);
  }

  /**
   The two variants agree on every JSON text and every capacity; where it suffices, also on the whole
   state of the parser. Too small a capacity is reported as such: no JSON text has another error.
   */
  lemma VariantsAgree(v: Value, lead: string, trail: string, cap: nat)
    requires WellFormed(v) && Spaces(lead) && Spaces(trail)
    ensures var js := lead + Text(v) + trail;
            && Run(js, INIT, cap, ParentLinks).1 == Run(js, INIT, cap, BackwardScan).1
               == (if Nodes(v) <= cap then Nodes(v) else JSMN_ERROR_NOMEM)
            && (Nodes(v) <= cap ==> Run(js, INIT, cap, ParentLinks) == Run(js, INIT, cap, BackwardScan))
  {
    if Nodes(v) <= cap {
      TextRoundTrip(v, lead, trail, cap, ParentLinks);
      TextRoundTrip(v, lead, trail, cap, BackwardScan);
    } else {
      OnlyMemoryFails(v, lead, trail, cap, ParentLinks);
      OnlyMemoryFails(v, lead, trail, cap, BackwardScan);
    }
  }

  lemma LoneObject(variant: Variant) returns (st: State)
    ensures st == State(3, 0, [Token(Object, 0, 2, 0)], [-1])
    ensures Reaches("{}:}", INIT, st, 1, variant)
  {
    var js := "{}:}";
    var s1 := State(1, 0, [Token(Object, 0, -1, 0)], [-1]);
    var s2 := State(2, -1, [Token(Object, 0, 2, 0)], [-1]);
    st := State(3, 0, [Token(Object, 0, 2, 0)], [-1]);
    assert Reaches(js, INIT, s1, 1, variant) by {
      Turn(js, INIT, s1, 1, variant);
    }
    assert Reaches(js, s1, s2, 1, variant) by {
      Turn(js, s1, s2, 1, variant);
    }
    assert Reaches(js, s2, st, 1, variant) by {
      Turn(js, s2, st, 1, variant);
    }
    Chain(js, INIT, s1, s2, 1, variant);
    Chain(js, INIT, s2, st, 1, variant);
  }

  /** Outside RFC 8259 they need not agree: only the parent links accept `{}:}`. */
  lemma VariantsNeedJson()
    ensures Run("{}:}", INIT, 1, ParentLinks).1 == 1
    ensures Run("{}:}", INIT, 1, BackwardScan).1 == JSMN_ERROR_INVAL
  {
    var js := "{}:}";
    var st := LoneObject(ParentLinks);
    var end := State(4, 0, [Token(Object, 0, 2, 0)], [-1]);
    assert Reaches(js, st, end, 1, ParentLinks) by {
      Turn(js, st, end, 1, ParentLinks);
    }
    Chain(js, INIT, st, end, 1, ParentLinks);
    assert EndsIn(js, end, 1, ParentLinks, end, 1);
    assert EndsIn(js, INIT, 1, ParentLinks, end, 1);
    st := LoneObject(BackwardScan);
    assert EndsIn(js, st, 1, BackwardScan, st, JSMN_ERROR_INVAL);
    assert EndsIn(js, INIT, 1, BackwardScan, st, JSMN_ERROR_INVAL);
  }

  lemma Whole(js: string, lead: string, text: string, trail: string)
    requires js == lead + text + trail
    ensures TextAt(js, 0, lead + (text + (trail + "")))
  {
    assert js == lead + (text + (trail + ""));
  }

  lemma AfterStart(v: Value, start: State, variant: Variant)
    requires start == INIT.(pos := start.pos)
    ensures After(v, start, variant) == State(start.pos + |Text(v)|, -1, Tokens(v, start.pos), Parents(v, 0, -1))
  {
    assert Bump(start.tokens, start.toksuper) + Tokens(v, start.pos) == Tokens(v, start.pos);
    assert start.parents + Parents(v, 0, -1) == Parents(v, 0, -1);
  }

  lemma WholeRun(js: string, v: Value, lead: string, trail: string, cap: nat, variant: Variant)
    requires TextAt(js, 0, lead + (Text(v) + (trail + ""))) && |js| == |lead| + |Text(v)| + |trail|
    requires WellFormed(v) && Spaces(lead) && Spaces(trail) && Nodes(v) <= cap
    ensures Reaches(js, INIT, After(v, INIT.(pos := |lead|), variant).(pos := |js|), cap, variant)
  {
    var start := INIT.(pos := |lead|);
    Split(js, 0, lead, Text(v) + (trail + ""));
    SpacesRun(js, INIT, lead, cap, variant);
    PaddedRun(js, v, start, trail, "", cap, variant);
    Chain(js, INIT, start, After(v, start, variant).(pos := |js|), cap, variant);
  }

  lemma {:induction false} NothingOpen(ts: seq<Token>, n: nat)
    requires n <= |ts| && forall i | 0 <= i < |ts| :: ts[i].end >= 0
    ensures LastOpen(ts, n) == -1
  {
    if n != 0 {
      NothingOpen(ts, n - 1);
    }
  }
}
