/**
 The two ways of finding superiors in jsmn_parse, on any text: by scanning backwards for a token
 without an end, and by following parent links (JSMN_PARENT_LINKS).
 */
module JsmnVariants {
  import opened JsmnLexing
  import opened JsmnMachine

  // ---------------------------------------------------------------------------
  // What the links lead to
  // ---------------------------------------------------------------------------

  ghost predicate LinksBack(ts: seq<Token>, parents: seq<int>) {
    |parents| == |ts| && forall j | 0 <= j < |parents| :: -1 <= parents[j] < j
  }

  /** The first open token from `i` upwards, or -1. */
  ghost function Up(ts: seq<Token>, parents: seq<int>, i: int): (r: int)
    requires LinksBack(ts, parents) && -1 <= i < |ts|
    ensures -1 <= r <= i && (r != -1 ==> ts[r].IsOpen())
    decreases i + 1
  {
    if i == -1 || ts[i].IsOpen() then i else Up(ts, parents, parents[i])
  }

  /** From every token, and from the superior, the links lead to what the backward scan finds. */
  ghost predicate Linked(ts: seq<Token>, parents: seq<int>, toksuper: int) {
    && LinksBack(ts, parents) && -1 <= toksuper < |ts|
    && (forall j | 0 <= j < |ts| && ts[j].IsOpen() :: ts[j].IsContainer())
    && (forall j | 0 <= j < |ts| :: LeadsTo(ts, parents, parents[j], LastOpen(ts, j)))
    && LeadsTo(ts, parents, toksuper, LastOpen(ts, |ts|))
  }

  ghost predicate LeadsTo(ts: seq<Token>, parents: seq<int>, i: int, r: int) {
    LinksBack(ts, parents) && -1 <= i < |ts| && Up(ts, parents, i) == r
  }

  ghost predicate LinkedState(st: State) {
    Linked(st.tokens, st.parents, st.toksuper)
  }

  /** Following the links depends on the tokens up to the first one only. */
  lemma {:induction false} UpOfSame(ts: seq<Token>, ps: seq<int>, us: seq<Token>, qs: seq<int>, i: int)
    requires LinksBack(ts, ps) && LinksBack(us, qs) && -1 <= i < |ts| && i < |us|
    requires forall j | 0 <= j <= i :: ts[j].IsOpen() == us[j].IsOpen() && ps[j] == qs[j]
    ensures Up(ts, ps, i) == Up(us, qs, i)
    decreases i + 1
  {
    if i != -1 && !ts[i].IsOpen() {
      UpOfSame(ts, ps, us, qs, ps[i]);
    }
  }

  /** From the last token, they lead to the last open one. */
  lemma UpFromLast(st: State)
    requires LinkedState(st)
    ensures Up(st.tokens, st.parents, |st.tokens| - 1) == LastOpen(st.tokens, |st.tokens|)
  {
    var n := |st.tokens|;
    if n > 0 {
      assert LeadsTo(st.tokens, st.parents, st.parents[n - 1], LastOpen(st.tokens, n - 1));
    }
  }

  /** What a closing bracket finds by the links, from what is open above. */
  lemma {:induction false} WalkUpFinds(ts: seq<Token>, ps: seq<int>, i: nat, kind: Kind, toksuper: int)
    requires LinksBack(ts, ps) && i < |ts|
    ensures var u := Up(ts, ps, i);
            if u == -1 then !WalkUp(ts, ps, i, kind, toksuper).Found?
            else WalkUp(ts, ps, i, kind, toksuper) == if ts[u].kind == kind then Found(u) else Mismatch
    decreases i
  {
    if !ts[i].IsOpen() && ps[i] != -1 {
      WalkUpFinds(ts, ps, ps[i], kind, toksuper);
    }
  }

  // ---------------------------------------------------------------------------
  // Every turn keeps it
  // ---------------------------------------------------------------------------

  /** The tokens have the same types and spans; sizes are another matter. */
  ghost predicate SameSpans(ts: seq<Token>, us: seq<Token>) {
    |ts| == |us| && forall j | 0 <= j < |ts| :: SameSpan(ts[j], us[j])
  }

  predicate SameSpan(t: Token, u: Token) {
    t.kind == u.kind && t.start == u.start && t.end == u.end
  }

  lemma BumpSpans(ts: seq<Token>, i: int)
    requires -1 <= i < |ts|
    ensures SameSpans(Bump(ts, i), ts)
  {}

  /** Sizes play no part in the links. */
  lemma LinkedOfSame(ts: seq<Token>, us: seq<Token>, ps: seq<int>, toksuper: int)
    requires Linked(ts, ps, toksuper) && SameSpans(ts, us)
    ensures Linked(us, ps, toksuper)
  {
    forall j | 0 <= j < |us|
      ensures LeadsTo(us, ps, ps[j], LastOpen(us, j))
    {
      assert LeadsTo(ts, ps, ps[j], LastOpen(ts, j));
      UpOfSame(ts, ps, us, ps, ps[j]);
      LastOpenDependsOnPrefix(ts, us, j);
    }
    UpOfSame(ts, ps, us, ps, toksuper);
    LastOpenDependsOnPrefix(ts, us, |ts|);
  }

  lemma AppendLeads(ts: seq<Token>, ps: seq<int>, t: Token, q: int, i: int, j: nat)
    requires LinksBack(ts, ps) && LinksBack(ts + [t], ps + [q]) && -1 <= i < |ts| && j <= |ts|
    requires LeadsTo(ts, ps, i, LastOpen(ts, j))
    ensures LeadsTo(ts + [t], ps + [q], i, LastOpen(ts + [t], j))
  {
    UpOfSame(ts, ps, ts + [t], ps + [q], i);
    LastOpenDependsOnPrefix(ts, ts + [t], j);
  }

  /** A new token below the superior. */
  lemma LinkedAppend(ts: seq<Token>, ps: seq<int>, toksuper: int, t: Token)
    requires Linked(ts, ps, toksuper) && (t.IsOpen() ==> t.IsContainer())
    ensures Linked(ts + [t], ps + [toksuper], if t.IsOpen() then |ts| else toksuper)
  {
    var us, qs := ts + [t], ps + [toksuper];
    assert LinksBack(us, qs);
    forall j | 0 <= j < |us|
      ensures LeadsTo(us, qs, qs[j], LastOpen(us, j))
    {
      assert j < |ts| ==> LeadsTo(ts, ps, ps[j], LastOpen(ts, j));
      AppendLeads(ts, ps, t, toksuper, qs[j], j);
    }
    AppendLeads(ts, ps, t, toksuper, toksuper, |ts|);
    assert LeadsTo(us, qs, if t.IsOpen() then |ts| else toksuper, LastOpen(us, |us|));
  }

  lemma AddKeepsLinked(st: State, t: Token, pos: nat)
    requires st.Valid() && LinkedState(st) && (t.IsOpen() ==> t.IsContainer())
    ensures var next := Add(st, t, pos);
            LinkedState(if t.IsOpen() then next.(toksuper := |st.tokens|) else next)
  {
    var bumped := Bump(st.tokens, st.toksuper);
    BumpSpans(st.tokens, st.toksuper);
    LinkedOfSame(st.tokens, bumped, st.parents, st.toksuper);
    LinkedAppend(bumped, st.parents, st.toksuper, t);
  }

  /** Once token `i` is closed, what led to it leads on to what its own link leads to. */
  lemma {:induction false} UpPastClosed(ts: seq<Token>, us: seq<Token>, ps: seq<int>, i: nat, p: int)
    requires LinksBack(ts, ps) && |us| == |ts| && i < |ts| && -1 <= p < |ts|
    requires !us[i].IsOpen() && forall j | 0 <= j < |ts| && j != i :: us[j].IsOpen() == ts[j].IsOpen()
    requires ts[i].IsOpen() && Up(ts, ps, p) == i
    ensures Up(us, ps, p) == Up(us, ps, ps[i]) == Up(ts, ps, ps[i])
    decreases p + 1
  {
    if p == i {
      UpOfSame(ts, ps, us, ps, ps[i]);
    } else {
      UpPastClosed(ts, us, ps, i, ps[p]);
    }
  }

  lemma {:induction false} LastOpenPastClosed(ts: seq<Token>, us: seq<Token>, i: nat, n: nat)
    requires i < n <= |ts| == |us| && ts[i].IsOpen() && !us[i].IsOpen()
    requires forall j | 0 <= j < i :: us[j].IsOpen() == ts[j].IsOpen()
    requires forall j | i < j < |ts| :: !ts[j].IsOpen() && !us[j].IsOpen()
    ensures LastOpen(ts, n) == i && LastOpen(us, n) == LastOpen(ts, i)
    decreases n
  {
    if n == i + 1 {
      LastOpenDependsOnPrefix(ts, us, i);
    } else {
      LastOpenPastClosed(ts, us, i, n - 1);
    }
  }

  lemma CloseKeepsLinked(ts: seq<Token>, us: seq<Token>, ps: seq<int>, toksuper: int, i: nat, end: nat)
    requires Linked(ts, ps, toksuper) && i < |ts| && LastOpen(ts, |ts|) == i && us == ts[i := ts[i].(end := end)]
    ensures Linked(us, ps, ps[i])
  {
    LastOpenIsLast(ts, |ts|);
    forall j | 0 <= j < |us|
      ensures LeadsTo(us, ps, ps[j], LastOpen(us, j))
    {
      assert LeadsTo(ts, ps, ps[j], LastOpen(ts, j));
      if j <= i {
        UpOfSame(ts, ps, us, ps, ps[j]);
        LastOpenDependsOnPrefix(ts, us, j);
      } else {
        LastOpenPastClosed(ts, us, i, j);
        UpPastClosed(ts, us, ps, i, ps[j]);
        assert LeadsTo(ts, ps, ps[i], LastOpen(ts, i));
      }
    }
    LastOpenPastClosed(ts, us, i, |ts|);
    assert LeadsTo(us, ps, ps[i], LastOpen(us, i));
    LastOpenDependsOnPrefix(ts, us, i);
  }

  // ---------------------------------------------------------------------------
  // Two parsers in step
  // ---------------------------------------------------------------------------

  /** `s` scans backwards and `l` follows links: the same cursor, types and spans. */
  ghost predicate InStep(s: State, l: State) {
    s.Valid() && l.Valid() && s.pos == l.pos && SameSpans(s.tokens, l.tokens) && LinkedState(l)
  }

  /** A closing bracket with no token open. */
  ghost predicate Stray(js: string, st: State) {
    st.Valid() && !AtEnd(js, st.pos) && IsClosing(js[st.pos]) && LastOpen(st.tokens, |st.tokens|) == -1
  }

  /** The links end in a closed token of the bracket's type, while there is a superior. */
  ghost predicate TakenByRoot(js: string, l: State) {
    && l.Valid() && l.pos < |js| && l.tokens != []
    && WalkUp(l.tokens, l.parents, |l.tokens| - 1, KindOf(js[l.pos]), l.toksuper) == Root
  }

  /** Two outcomes that go on in step, or end with the same code. */
  ghost predicate SameTurn(oa: Outcome, ob: Outcome) {
    if oa.Go? then ob.Go? && InStep(oa.next, ob.next) else oa == ob
  }

  /** How one turn of each goes: together, to the same end, or apart at a stray bracket. */
  ghost predicate TurnsAgree(js: string, s: State, l: State, a: Outcome, b: Outcome) {
    if Stray(js, s) && TakenByRoot(js, l) then a == Halt(JSMN_ERROR_INVAL) && b == Go(l.(pos := l.pos + 1))
    else SameTurn(a, b)
  }

  lemma LastOpenOfSame(ts: seq<Token>, us: seq<Token>, n: nat)
    requires SameSpans(ts, us) && n <= |ts|
    ensures LastOpen(ts, n) == LastOpen(us, n)
  {
    LastOpenDependsOnPrefix(ts, us, n);
  }

  /** Both close token `i`, the last open one. */
  lemma BothClose(s: State, l: State, i: nat)
    requires InStep(s, l) && i < |s.tokens| && LastOpen(l.tokens, |l.tokens|) == i
    ensures InStep(State(s.pos + 1, LastOpen(s.tokens, i), s.tokens[i := s.tokens[i].(end := s.pos + 1)], s.parents),
                   State(l.pos + 1, l.parents[i], l.tokens[i := l.tokens[i].(end := l.pos + 1)], l.parents))
  {
    var ts, us := s.tokens[i := s.tokens[i].(end := s.pos + 1)], l.tokens[i := l.tokens[i].(end := l.pos + 1)];
    CloseKeepsLinked(l.tokens, us, l.parents, l.toksuper, i, l.pos + 1);
    assert SameSpan(s.tokens[i], l.tokens[i]);
    assert SameSpans(ts, us);
  }

  /** What the links find for a closing bracket, from what the scan finds. */
  lemma LinksFind(js: string, l: State)
    requires l.Valid() && LinkedState(l) && !AtEnd(js, l.pos) && IsClosing(js[l.pos]) && l.tokens != []
    ensures var i, kind := LastOpen(l.tokens, |l.tokens|), KindOf(js[l.pos]);
            var walk := WalkUp(l.tokens, l.parents, |l.tokens| - 1, kind, l.toksuper);
            if i == -1 then !walk.Found? else walk == if l.tokens[i].kind == kind then Found(i) else Mismatch
  {
    UpFromLast(l);
    WalkUpFinds(l.tokens, l.parents, |l.tokens| - 1, KindOf(js[l.pos]), l.toksuper);
  }

  lemma CloseAgrees(js: string, s: State, l: State)
    requires InStep(s, l) && !AtEnd(js, s.pos) && IsClosing(js[s.pos])
    ensures TurnsAgree(js, s, l, CloseByScan(js, s), CloseByLinks(js, l))
  {
    var i := LastOpen(s.tokens, |s.tokens|);
    LastOpenOfSame(s.tokens, l.tokens, |s.tokens|);
    if l.tokens != [] {
      LinksFind(js, l);
    }
    if i != -1 {
      assert SameSpan(s.tokens[i], l.tokens[i]);
      CloseOpenAgrees(js, s, l, i);
    } else {
      CloseStrayAgrees(js, s, l);
    }
  }

  lemma CloseStrayAgrees(js: string, s: State, l: State)
    requires s.Valid() && l.Valid() && s.pos == l.pos && Stray(js, s)
    requires l.tokens != [] ==> !WalkUp(l.tokens, l.parents, |l.tokens| - 1, KindOf(js[l.pos]), l.toksuper).Found?
    ensures TurnsAgree(js, s, l, CloseByScan(js, s), CloseByLinks(js, l))
  {
    assert CloseByScan(js, s) == Halt(JSMN_ERROR_INVAL);
    if TakenByRoot(js, l) {
      assert CloseByLinks(js, l) == Go(l.(pos := l.pos + 1));
    } else {
      assert CloseByLinks(js, l) == Halt(JSMN_ERROR_INVAL);
    }
  }

  /** The states behind a bracket that closes token `i`. */
  lemma ClosedStates(js: string, s: State, l: State, i: nat) returns (a: State, b: State)
    requires s.Valid() && l.Valid() && s.pos < |js| && l.pos < |js| && i < |s.tokens| == |l.tokens|
    requires LastOpen(s.tokens, |s.tokens|) == i && s.tokens[i].kind == KindOf(js[s.pos])
    requires WalkUp(l.tokens, l.parents, |l.tokens| - 1, KindOf(js[l.pos]), l.toksuper) == Found(i)
    ensures a == State(s.pos + 1, LastOpen(s.tokens, i), s.tokens[i := s.tokens[i].(end := s.pos + 1)], s.parents)
    ensures b == State(l.pos + 1, l.parents[i], l.tokens[i := l.tokens[i].(end := l.pos + 1)], l.parents)
    ensures CloseByScan(js, s) == Go(a) && CloseByLinks(js, l) == Go(b)
  {
    a := State(s.pos + 1, LastOpen(s.tokens, i), s.tokens[i := s.tokens[i].(end := s.pos + 1)], s.parents);
    b := State(l.pos + 1, l.parents[i], l.tokens[i := l.tokens[i].(end := l.pos + 1)], l.parents);
  }

  lemma GoTogether(js: string, s: State, l: State, oa: Outcome, ob: Outcome, a: State, b: State)
    requires oa == Go(a) && ob == Go(b) && InStep(a, b) && !Stray(js, s)
    ensures TurnsAgree(js, s, l, oa, ob)
  {}

  lemma CloseOpenAgrees(js: string, s: State, l: State, i: nat)
    requires InStep(s, l) && !AtEnd(js, s.pos) && IsClosing(js[s.pos])
    requires i < |s.tokens| && LastOpen(s.tokens, |s.tokens|) == LastOpen(l.tokens, |l.tokens|) == i
    requires s.tokens[i].kind == l.tokens[i].kind
    requires WalkUp(l.tokens, l.parents, |l.tokens| - 1, KindOf(js[l.pos]), l.toksuper)
          == if l.tokens[i].kind == KindOf(js[l.pos]) then Found(i) else Mismatch
    ensures TurnsAgree(js, s, l, CloseByScan(js, s), CloseByLinks(js, l))
  {
    if s.tokens[i].kind == KindOf(js[s.pos]) {
      BothClose(s, l, i);
      var a, b := ClosedStates(js, s, l, i);
      GoTogether(js, s, l, CloseByScan(js, s), CloseByLinks(js, l), a, b);
    } else {
      assert CloseByScan(js, s) == CloseByLinks(js, l) == Halt(JSMN_ERROR_INVAL);
    }
  }

  lemma AddAgrees(s: State, l: State, t: Token, pos: nat) returns (a: State, b: State)
    requires InStep(s, l) && (t.IsOpen() ==> t.IsContainer())
    ensures a == if t.IsOpen() then Add(s, t, pos).(toksuper := |s.tokens|) else Add(s, t, pos)
    ensures b == if t.IsOpen() then Add(l, t, pos).(toksuper := |l.tokens|) else Add(l, t, pos)
    ensures InStep(a, b)
  {
    AddKeepsLinked(l, t, pos);
    var us, vs := Bump(s.tokens, s.toksuper), Bump(l.tokens, l.toksuper);
    BumpSpans(s.tokens, s.toksuper);
    BumpSpans(l.tokens, l.toksuper);
    assert SameSpans(us, vs);
    assert SameSpans(us + [t], vs + [t]);
    a := if t.IsOpen() then Add(s, t, pos).(toksuper := |s.tokens|) else Add(s, t, pos);
    b := if t.IsOpen() then Add(l, t, pos).(toksuper := |l.tokens|) else Add(l, t, pos);
  }

  lemma MoveAgrees(s: State, l: State, pos: nat, a: int, b: int)
    requires InStep(s, l) && -1 <= a < |s.tokens| && -1 <= b < |l.tokens|
    requires LeadsTo(l.tokens, l.parents, b, LastOpen(l.tokens, |l.tokens|))
    ensures InStep(s.(pos := pos, toksuper := a), l.(pos := pos, toksuper := b))
  {}

  lemma CommaLeads(l: State)
    requires l.Valid() && LinkedState(l)
    ensures LeadsTo(l.tokens, l.parents, CommaSuper(l, ParentLinks), LastOpen(l.tokens, |l.tokens|))
  {}

  lemma StringOutcome(js: string, st: State, cap: nat, k: nat)
    requires st.Valid() && st.pos < |js| && ScanString(js, st.pos + 1) == Closed(k)
    ensures StringStep(js, st, cap)
         == if |st.tokens| >= cap then Halt(JSMN_ERROR_NOMEM) else Go(Add(st, Token(String, st.pos + 1, k, 0), k + 1))
  {}

  lemma StringAgrees(js: string, s: State, l: State, cap: nat)
    requires InStep(s, l) && s.pos < |js|
    ensures SameTurn(StringStep(js, s, cap), StringStep(js, l, cap))
  {
    if ScanString(js, s.pos + 1).Closed? {
      var k := ScanString(js, s.pos + 1).at;
      StringOutcome(js, s, cap, k);
      StringOutcome(js, l, cap, k);
      AddInStep(s, l, Token(String, s.pos + 1, k, 0), k + 1, cap, StringStep(js, s, cap), StringStep(js, l, cap));
    }
  }

  /** A token that both add, or have no room for. */
  lemma AddInStep(s: State, l: State, t: Token, pos: nat, cap: nat, oa: Outcome, ob: Outcome)
    requires InStep(s, l) && !t.IsOpen()
    requires oa == if |s.tokens| >= cap then Halt(JSMN_ERROR_NOMEM) else Go(Add(s, t, pos))
    requires ob == if |l.tokens| >= cap then Halt(JSMN_ERROR_NOMEM) else Go(Add(l, t, pos))
    ensures SameTurn(oa, ob)
  {
    var a, b := AddAgrees(s, l, t, pos);
  }

  lemma PrimitiveAgrees(js: string, s: State, l: State, cap: nat)
    requires InStep(s, l) && !AtEnd(js, s.pos) && StartsPrimitive(js[s.pos])
    ensures SameTurn(PrimitiveStep(js, s, cap), PrimitiveStep(js, l, cap))
  {
    if ScanPrimitive(js, s.pos).Closed? {
      var k := ScanPrimitive(js, s.pos).at;
      AddInStep(s, l, Token(Primitive, s.pos, k, 0), k, cap, PrimitiveStep(js, s, cap), PrimitiveStep(js, l, cap));
    }
  }

  lemma OpenAgrees(js: string, s: State, l: State, cap: nat)
    requires InStep(s, l) && s.pos < |js|
    ensures SameTurn(OpenStep(js, s, cap), OpenStep(js, l, cap))
  {
    if |s.tokens| < cap {
      var a, b := AddAgrees(s, l, Token(KindOf(js[s.pos]), s.pos, -1, 0), s.pos + 1);
      assert OpenStep(js, s, cap) == Go(a) && OpenStep(js, l, cap) == Go(b);
    }
  }

  /** Every turn, on any text. */
  lemma StepsAgree(js: string, s: State, l: State, cap: nat)
    requires InStep(s, l) && !AtEnd(js, s.pos)
    ensures TurnsAgree(js, s, l, Step(js, s, cap, BackwardScan), Step(js, l, cap, ParentLinks))
  {
    var c := js[s.pos];
    if IsOpening(c) {
      OpenAgrees(js, s, l, cap);
    } else if IsClosing(c) {
      CloseAgrees(js, s, l);
    } else if c == '\"' {
      StringAgrees(js, s, l, cap);
    } else if IsSpace(c) {
      MoveAgrees(s, l, s.pos + 1, s.toksuper, l.toksuper);
    } else if c == ':' {
      UpFromLast(l);
      MoveAgrees(s, l, s.pos + 1, |s.tokens| - 1, |l.tokens| - 1);
    } else if c == ',' {
      CommaLeads(l);
      MoveAgrees(s, l, s.pos + 1, CommaSuper(s, BackwardScan), CommaSuper(l, ParentLinks));
    } else {
      PrimitiveAgrees(js, s, l, cap);
    }
  }

  // ---------------------------------------------------------------------------
  // Whole runs
  // ---------------------------------------------------------------------------

  /** The state that a run passes through when its cursor first gets to `pos`, or that it ends in before. */
  function RunTo(js: string, st: State, cap: nat, variant: Variant, pos: nat): (r: State)
    requires st.Valid()
    ensures r.Valid()
    decreases |js| - st.pos
  {
    if st.pos >= pos || AtEnd(js, st.pos) then st
    else match Step(js, st, cap, variant)
      case Halt(_) => st
      case Go(next) => RunTo(js, next, cap, variant, pos)
  }

  lemma {:induction false} RunAdvances(js: string, st: State, cap: nat, variant: Variant)
    requires st.Valid()
    ensures Run(js, st, cap, variant).0.pos >= st.pos
    decreases |js| - st.pos
  {
    if !AtEnd(js, st.pos) && Step(js, st, cap, variant).Go? {
      RunAdvances(js, Step(js, st, cap, variant).next, cap, variant);
    }
  }

  /** The scan stops at a stray bracket that the links take for one of a closed token. */
  ghost predicate Part(js: string, s: State, l: State) {
    Stray(js, s) && TakenByRoot(js, l)
  }

  ghost predicate RunsAgree(js: string, s: State, l: State, cap: nat)
    requires s.Valid() && l.Valid()
  {
    var (end, code) := Run(js, s, cap, BackwardScan);
    var there := RunTo(js, l, cap, ParentLinks, end.pos);
    && InStep(end, there)
    && (if Part(js, end, there) then code == JSMN_ERROR_INVAL && Run(js, l, cap, ParentLinks).0.pos > end.pos
        else Run(js, l, cap, ParentLinks) == (there, code))
  }

  lemma {:induction false} RunsAgreeFrom(js: string, s: State, l: State, cap: nat)
    requires InStep(s, l)
    ensures RunsAgree(js, s, l, cap)
    decreases |js| - s.pos
  {
    if AtEnd(js, s.pos) {
      LastOpenOfSame(s.tokens, l.tokens, |s.tokens|);
    } else {
      StepsAgree(js, s, l, cap);
      var a, b := Step(js, s, cap, BackwardScan), Step(js, l, cap, ParentLinks);
      if a.Go? {
        RunAdvances(js, a.next, cap, BackwardScan);
        RunsAgreeFrom(js, a.next, b.next, cap);
      } else if b.Go? {
        RunAdvances(js, b.next, cap, ParentLinks);
      }
    }
  }

  lemma InitInStep()
    ensures InStep(INIT, INIT)
  {}

  /**
   For every text and every capacity: the two variants return the same from the same cursor, with the
   same types and spans of all tokens, if and only if the backward scan does not stop at a stray
   closing bracket that the links, at the same place, take for one of a closed token.
   */
  lemma VariantsAgreeIff(js: string, cap: nat)
    ensures var (s, code) := Run(js, INIT, cap, BackwardScan);
            var (l, other) := Run(js, INIT, cap, ParentLinks);
            var there := RunTo(js, INIT, cap, ParentLinks, s.pos);
            && (code == other && s.pos == l.pos && SameSpans(s.tokens, l.tokens) <==> !Part(js, s, there))
            && (Part(js, s, there) ==> code == JSMN_ERROR_INVAL && l.pos > s.pos)
            && s.pos == there.pos && SameSpans(s.tokens, there.tokens)
  {
    InitInStep();
    RunsAgreeFrom(js, INIT, INIT, cap);
  }

  /** Where the scan succeeds, the links do, with the same tokens but for their sizes. The text need not be JSON. */
  lemma LinksFollowSuccess(js: string, cap: nat)
    requires Fill(js, cap).1 >= 0
    ensures var (l, code) := Run(js, INIT, cap, ParentLinks);
            code == Fill(js, cap).1 && l.pos == Fill(js, cap).0.pos && SameSpans(Fill(js, cap).0.tokens, l.tokens)
  {
    VariantsAgreeIff(js, cap);
  }
}
