/**
 The tokenizer as a state machine (include/jsmn.h, jsmn_parse): one step per turn of its main
 loop. Module Jsmn proves that the imperative parser computes exactly `Run` and `CountRun`.
 */
module JsmnMachine {
  import opened JsmnLexing

  const JSMN_ERROR_NOMEM := -1
  const JSMN_ERROR_INVAL := -2
  const JSMN_ERROR_PART := -3

  datatype Kind = Undefined | Object | Array | String | Primitive

  datatype Token = Token(kind: Kind, start: int, end: int, size: int) {
    predicate IsOpen() {
      start != -1 && end == -1
    }

    predicate IsContainer() {
      kind == Array || kind == Object
    }
  }

  /**
   How a closing bracket and a comma find the enclosing container: by scanning the token array
   backwards (the variant this repository compiles), or along the `parent` field that the
   preprocessor symbol JSMN_PARENT_LINKS adds.
   */
  datatype Variant = BackwardScan | ParentLinks

  /**
   What the parser has built when it is at `pos`: `tokens` are the first `toknext` elements of
   the array. `parents[i]` is the value of `toksuper` when token `i` was made. The source stores
   it (as `parent`) only under JSMN_PARENT_LINKS; the variant BackwardScan never reads it.
   */
  datatype State = State(pos: nat, toksuper: int, tokens: seq<Token>, parents: seq<int>) {
    ghost predicate Valid() {
      && |parents| == |tokens|
      && -1 <= toksuper < |tokens|
      && forall i | 0 <= i < |parents| :: -1 <= parents[i] < i
    }
  }

  const INIT := State(0, -1, [], [])

  /** The index of the last open token below `n`, or -1. */
  function LastOpen(ts: seq<Token>, n: nat): (r: int)
    requires n <= |ts|
    ensures -1 <= r < n
    ensures r != -1 ==> ts[r].IsOpen()
  {
    if n == 0 then -1
    else if ts[n - 1].IsOpen() then n - 1
    else LastOpen(ts, n - 1)
  }

  lemma {:induction false} LastOpenIsLast(ts: seq<Token>, n: nat)
    requires n <= |ts|
    ensures forall i | LastOpen(ts, n) < i < n :: !ts[i].IsOpen()
  {
    if n != 0 && !ts[n - 1].IsOpen() {
      LastOpenIsLast(ts, n - 1);
    }
  }

  /** The scan below `n` looks at the tokens below `n` only. */
  lemma {:induction false} LastOpenDependsOnPrefix(ts: seq<Token>, us: seq<Token>, n: nat)
    requires n <= |ts| && n <= |us| && forall i | 0 <= i < n :: ts[i].IsOpen() == us[i].IsOpen()
    ensures LastOpen(ts, n) == LastOpen(us, n)
  {
    if n != 0 {
      LastOpenDependsOnPrefix(ts, us, n - 1);
    }
  }

  /** The index of the last open object or array below `n`, or -1. */
  function LastOpenContainer(ts: seq<Token>, n: nat): (r: int)
    requires n <= |ts|
    ensures -1 <= r < n
    ensures r != -1 ==> ts[r].IsOpen() && ts[r].IsContainer()
  {
    if n == 0 then -1
    else if ts[n - 1].IsContainer() && ts[n - 1].IsOpen() then n - 1
    else LastOpenContainer(ts, n - 1)
  }

  /** What following the parent links from token `i` finds for a bracket closing a `kind`. */
  datatype Walk = Found(at: nat) | Root | Mismatch

  function WalkUp(ts: seq<Token>, parents: seq<int>, i: nat, kind: Kind, toksuper: int): (r: Walk)
    requires |parents| == |ts| && i < |ts|
    requires forall j | 0 <= j < |parents| :: -1 <= parents[j] < j
    ensures r.Found? ==> r.at < |ts|
  {
    if ts[i].IsOpen() then
      if ts[i].kind == kind then Found(i) else Mismatch
    else if parents[i] == -1 then
      if ts[i].kind != kind || toksuper == -1 then Mismatch else Root
    else WalkUp(ts, parents, parents[i], kind, toksuper)
  }

  /** `size++` on token `i`, if there is one. */
  function Bump(ts: seq<Token>, i: int): (r: seq<Token>)
    requires -1 <= i < |ts|
    ensures |r| == |ts|
  {
    if i == -1 then ts else ts[i := ts[i].(size := ts[i].size + 1)]
  }

  /** A new token below the current superior. */
  function Add(st: State, t: Token, pos: nat): (r: State)
    requires st.Valid()
    ensures r.Valid()
  {
    State(pos, st.toksuper, Bump(st.tokens, st.toksuper) + [t], st.parents + [st.toksuper])
  }

  function KindOf(bracket: char): Kind {
    if bracket == '{' || bracket == '}' then Object else Array
  }

  /** One turn of the main loop: it either goes on or ends the call, leaving the parser as it was. */
  datatype Outcome = Go(next: State) | Halt(code: int)

  function OpenStep(js: string, st: State, cap: nat): (o: Outcome)
    requires st.Valid() && st.pos < |js|
    ensures o.Go? ==> o.next.Valid()
  {
    if |st.tokens| >= cap then Halt(JSMN_ERROR_NOMEM)
    else Go(Add(st, Token(KindOf(js[st.pos]), st.pos, -1, 0), st.pos + 1).(toksuper := |st.tokens|))
  }

  function CloseByScan(js: string, st: State): (o: Outcome)
    requires st.Valid() && st.pos < |js|
    ensures o.Go? ==> o.next.Valid()
  {
    var i := LastOpen(st.tokens, |st.tokens|);
    if i == -1 || st.tokens[i].kind != KindOf(js[st.pos]) then Halt(JSMN_ERROR_INVAL)
    else Go(State(st.pos + 1, LastOpen(st.tokens, i),
                  st.tokens[i := st.tokens[i].(end := st.pos + 1)], st.parents))
  }

  function CloseByLinks(js: string, st: State): (o: Outcome)
    requires st.Valid() && st.pos < |js|
    ensures o.Go? ==> o.next.Valid()
  {
    if |st.tokens| < 1 then Halt(JSMN_ERROR_INVAL) else
    match WalkUp(st.tokens, st.parents, |st.tokens| - 1, KindOf(js[st.pos]), st.toksuper)
    case Mismatch => Halt(JSMN_ERROR_INVAL)
    case Root => Go(st.(pos := st.pos + 1))
    case Found(i) => Go(State(st.pos + 1, st.parents[i],
                             st.tokens[i := st.tokens[i].(end := st.pos + 1)], st.parents))
  }

  /** The superior after a comma. */
  function CommaSuper(st: State, variant: Variant): (r: int)
    requires st.Valid()
    ensures -1 <= r < |st.tokens|
  {
    if st.toksuper == -1 || st.tokens[st.toksuper].IsContainer() then st.toksuper
    else match variant
      case ParentLinks => st.parents[st.toksuper]
      case BackwardScan =>
        var i := LastOpenContainer(st.tokens, |st.tokens|);
        if i == -1 then st.toksuper else i
  }

  lemma {:induction false} LastOpenContainerIsLast(ts: seq<Token>, n: nat)
    requires n <= |ts|
    ensures forall i | LastOpenContainer(ts, n) < i < n :: !(ts[i].IsOpen() && ts[i].IsContainer())
  {
    if n != 0 && !(ts[n - 1].IsContainer() && ts[n - 1].IsOpen()) {
      LastOpenContainerIsLast(ts, n - 1);
    }
  }

  /** Token `i` is an object or array that has no end yet. */
  ghost predicate OpenContainerAt(ts: seq<Token>, i: int) {
    0 <= i < |ts| && (ts[i].kind == Object || ts[i].kind == Array) && ts[i].start != -1 && ts[i].end == -1
  }

  /**
   After a comma the superior is the last open container if it was a key or another value, and there is
   an open container; and else what it was.
   */
  lemma CommaSuperExact(st: State)
    requires st.Valid()
    ensures var r := CommaSuper(st, BackwardScan);
            if st.toksuper != -1 && st.tokens[st.toksuper].kind != Object && st.tokens[st.toksuper].kind != Array
               && exists i :: OpenContainerAt(st.tokens, i)
            then OpenContainerAt(st.tokens, r) && forall i | OpenContainerAt(st.tokens, i) :: i <= r
            else r == st.toksuper
  {
    LastOpenContainerIsLast(st.tokens, |st.tokens|);
    var i := LastOpenContainer(st.tokens, |st.tokens|);
    assert i != -1 ==> OpenContainerAt(st.tokens, i);
  }

  function StringStep(js: string, st: State, cap: nat): (o: Outcome)
    requires st.Valid() && st.pos < |js|
    ensures o.Go? ==> o.next.Valid() && st.pos + 1 < o.next.pos <= |js|
  {
    match ScanString(js, st.pos + 1)
    case Invalid => Halt(JSMN_ERROR_INVAL)
    case Unterminated => Halt(JSMN_ERROR_PART)
    case Closed(k) =>
      if |st.tokens| >= cap then Halt(JSMN_ERROR_NOMEM)
      else Go(Add(st, Token(String, st.pos + 1, k, 0), k + 1))
  }

  function PrimitiveStep(js: string, st: State, cap: nat): (o: Outcome)
    requires st.Valid() && !AtEnd(js, st.pos) && StartsPrimitive(js[st.pos])
    ensures o.Go? ==> o.next.Valid() && st.pos < o.next.pos <= |js|
  {
    match ScanPrimitive(js, st.pos)
    case Invalid => Halt(JSMN_ERROR_INVAL)
    case Closed(k) =>
      if |st.tokens| >= cap then Halt(JSMN_ERROR_NOMEM)
      else Go(Add(st, Token(Primitive, st.pos, k, 0), k))
  }

  function Step(js: string, st: State, cap: nat, variant: Variant): (o: Outcome)
    requires st.Valid() && !AtEnd(js, st.pos)
    ensures o.Go? ==> o.next.Valid() && st.pos < o.next.pos <= |js|
  {
    var c := js[st.pos];
    if IsOpening(c) then OpenStep(js, st, cap)
    else if IsClosing(c) then
      if variant.BackwardScan? then CloseByScan(js, st) else CloseByLinks(js, st)
    else if c == '\"' then StringStep(js, st, cap)
    else if IsSpace(c) then Go(st.(pos := st.pos + 1))
    else if c == ':' then Go(st.(pos := st.pos + 1, toksuper := |st.tokens| - 1))
    else if c == ',' then Go(st.(pos := st.pos + 1, toksuper := CommaSuper(st, variant)))
    else PrimitiveStep(js, st, cap)
  }

  /** The fill pass: the state in which the call leaves the parser, and what it returns. */
  function Run(js: string, st: State, cap: nat, variant: Variant): (r: (State, int))
    requires st.Valid()
    ensures r.0.Valid()
    decreases |js| - st.pos
  {
    if AtEnd(js, st.pos) then
      (st, if LastOpen(st.tokens, |st.tokens|) != -1 then JSMN_ERROR_PART else |st.tokens|)
    else match Step(js, st, cap, variant)
      case Halt(code) => (st, code)
      case Go(next) => Run(js, next, cap, variant)
  }

  /** One turn of the counting pass (no token array): the next position and whether a token was met. */
  datatype CountOutcome = Move(pos: nat, made: nat) | Stop(code: int)

  function CountStep(js: string, pos: nat): (o: CountOutcome)
    requires !AtEnd(js, pos)
    ensures o.Move? ==> pos < o.pos <= |js| && o.made <= 1
    ensures o.Stop? ==> o.code < 0
  {
    var c := js[pos];
    if IsOpening(c) then Move(pos + 1, 1)
    else if c == '\"' then
      match ScanString(js, pos + 1)
      case Invalid => Stop(JSMN_ERROR_INVAL)
      case Unterminated => Stop(JSMN_ERROR_PART)
      case Closed(k) => Move(k + 1, 1)
    else if StartsPrimitive(c) then
      match ScanPrimitive(js, pos)
      case Invalid => Stop(JSMN_ERROR_INVAL)
      case Closed(k) => Move(k, 1)
    else Move(pos + 1, 0)
  }

  function CountRun(js: string, pos: nat, count: nat): (r: (nat, int))
    decreases |js| - pos
  {
    if AtEnd(js, pos) then (pos, count)
    else match CountStep(js, pos)
      case Stop(code) => (pos, code)
      case Move(next, made) => CountRun(js, next, count + made)
  }

  /** The counting pass of json_tokenise. */
  function Count(js: string): int {
    CountRun(js, 0, 0).1
  }

  /** The fill pass of json_tokenise, on a new parser. */
  function Fill(js: string, cap: nat): (State, int) {
    Run(js, INIT, cap, BackwardScan)
  }
}
