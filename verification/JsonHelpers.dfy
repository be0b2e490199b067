/**
 lib/json_helpers.c: the two passes of json_tokenise, and json_dump, which reads the flat token
 array back as a tree with nothing but the `size` fields.
 */
module JsonHelpers {
  import JsmnLexing
  import opened JsmnMachine
  import Verdict = JsmnVerdict
  import Invariants = JsmnInvariants
  import opened JsonGrammar
  import RoundTrip = JsonRoundTrip
  import Jsmn

  /** The text of a token. */
  function TokenText(json: string, t: Token): string
    requires 0 <= t.start <= t.end <= |json|
  {
    json[t.start..t.end]
  }

  /** json_token_streq: 0 if the token is a string with the text `s`, and -1 otherwise. */
  function TokenStreq(json: string, t: Token, s: string): (r: int)
    requires 0 <= t.start <= t.end <= |json|
    ensures r == 0 <==> t.kind == String && TokenText(json, t) == s
    ensures r == 0 || r == -1
  {
    if t.kind == String && |s| == t.end - t.start && TokenText(json, t) == s then 0 else -1
  }

  /**
   The outcome of json_tokenise: NULL when the count pass fails, an abort when the assertion on
   the fill pass does, and otherwise a buffer of exactly the counted length.
   */
  datatype Tokenised = Unparseable | Aborted | Tokenised(buffer: array<Token>)

  method Tokenise(json: string) returns (t: Tokenised)
    ensures t.Unparseable? <==> Count(json) < 0
    ensures t.Aborted? <==>
            Count(json) >= 0 && !exists f :: Verdict.BracketKinds(f) && Verdict.Flatten(f) == Verdict.Brackets(json, 0)
    ensures t.Tokenised? ==>
            && fresh(t.buffer)
            && t.buffer.Length == Count(json) == Fill(json, Count(json)).1
            && t.buffer[..] == Fill(json, Count(json)).0.tokens
  {
    var parser := new Jsmn.Parser();
    var r := parser.Parse(json, null, 0);
    if r < 0 {
      return Unparseable;
    }
    var tokens := new Token[r](_ => Token(Undefined, 0, 0, 0));
    parser := new Jsmn.Parser();
    assert parser.View(tokens) == INIT;
    var ret := parser.Parse(json, tokens, r);
    Verdict.FillSucceedsIff(json, r);
    if ret < 0 {
      return Aborted;
    }
    Verdict.FillAfterCount(json, r);
    Invariants.RunCode(json, INIT, r);
    assert tokens[..] == tokens[..parser.toknext];
    return Tokenised(tokens);
  }

  // ---------------------------------------------------------------------------
  // json_dump
  // ---------------------------------------------------------------------------

  /**
   The index at which a dump that starts on token `i` ends, or -1 if it reads past the array. A
   token of no kind is passed over without being counted, as in the source.
   */
  function DumpFrom(ts: seq<Token>, i: nat): (r: int)
    ensures r == -1 || i <= r <= |ts|
    decreases |ts| - i, 0, 0
  {
    if i >= |ts| then -1
    else match ts[i].kind
      case Primitive => i + 1
      case String => i + 1
      case Object => DumpMembers(ts, i + 1, ts[i].size)
      case Array => DumpItems(ts, i + 1, ts[i].size)
      case Undefined => i
  }

  function DumpItems(ts: seq<Token>, i: nat, n: int): (r: int)
    requires i <= |ts|
    ensures r == -1 || i <= r <= |ts|
    decreases |ts| - i, 1, n
  {
    if n <= 0 then i
    else
      var next := DumpFrom(ts, i);
      if next == -1 then -1 else DumpItems(ts, next, n - 1)
  }

  /** A member whose label has a size is followed by its value. */
  function DumpMembers(ts: seq<Token>, i: nat, n: int): (r: int)
    requires i <= |ts|
    ensures r == -1 || i <= r <= |ts|
    decreases |ts| - i, 1, n
  {
    if n <= 0 then i
    else
      var key := DumpFrom(ts, i);
      if key == -1 then -1
      else if ts[i].size > 0 then
        var value := DumpFrom(ts, key);
        if value == -1 then -1 else DumpMembers(ts, value, n - 1)
      else DumpMembers(ts, key, n - 1)
  }

  function Range(i: nat, n: nat): (s: seq<nat>)
    ensures |s| == n && forall k | 0 <= k < n :: s[k] == i + k
  {
    seq(n, k requires 0 <= k < n => i + k)
  }

  lemma RangeAppend(t: nat, m: nat, n: nat)
    ensures Range(t, m) + Range(t + m, n) == Range(t, m + n)
  {}

  /**
   json_dump. The text it writes is modelled by the indices of the tokens it visits: each of the
   tokens up to the end of the dump, once and in order.
   */
  method Dump(ts: seq<Token>, t: nat) returns (n: nat, visited: seq<nat>)
    requires DumpFrom(ts, t) != -1
    ensures t + n == DumpFrom(ts, t)
    ensures visited == Range(t, n)
    decreases |ts| - t, 1
  {
    match ts[t].kind
    case Undefined =>
      return 0, [];
    case Primitive =>
      return 1, [t];
    case String =>
      return 1, [t];
    case Object =>
      n, visited := DumpObject(ts, t);
    case Array =>
      n, visited := DumpArray(ts, t);
  }

  method DumpObject(ts: seq<Token>, t: nat) returns (n: nat, visited: seq<nat>)
    requires t < |ts| && ts[t].kind == Object && DumpMembers(ts, t + 1, ts[t].size) != -1
    ensures t + n == DumpMembers(ts, t + 1, ts[t].size)
    ensures visited == Range(t, n)
    decreases |ts| - t, 0
  {
    n, visited := 1, [t];
    ghost var end := DumpMembers(ts, t + 1, ts[t].size);
    var i := 0;
    while i < ts[t].size
      invariant 1 <= n && t + n <= |ts| && visited == Range(t, n)
      invariant DumpMembers(ts, t + n, ts[t].size - i) == end
      decreases ts[t].size - i
    {
      var m, more := DumpMember(ts, t + n, ts[t].size - i);
      RangeAppend(t, n, m);
      n, visited := n + m, visited + more;
      i := i + 1;
    }
  }

  /** A label, and its value if the label has a size; `left` members are still to come. */
  method DumpMember(ts: seq<Token>, key: nat, ghost left: nat) returns (n: nat, visited: seq<nat>)
    requires left > 0 && key <= |ts| && DumpMembers(ts, key, left) != -1
    ensures key + n <= |ts| && DumpMembers(ts, key + n, left - 1) == DumpMembers(ts, key, left)
    ensures visited == Range(key, n)
    decreases |ts| - key, 2
  {
    n, visited := Dump(ts, key);
    if ts[key].size > 0 {
      var m, more := Dump(ts, key + n);
      RangeAppend(key, n, m);
      n, visited := n + m, visited + more;
    }
  }

  method DumpArray(ts: seq<Token>, t: nat) returns (n: nat, visited: seq<nat>)
    requires t < |ts| && ts[t].kind == Array && DumpItems(ts, t + 1, ts[t].size) != -1
    ensures t + n == DumpItems(ts, t + 1, ts[t].size)
    ensures visited == Range(t, n)
    decreases |ts| - t, 0
  {
    n, visited := 1, [t];
    ghost var end := DumpItems(ts, t + 1, ts[t].size);
    var i := 0;
    while i < ts[t].size
      invariant 1 <= n && t + n <= |ts| && visited == Range(t, n)
      invariant DumpItems(ts, t + n, ts[t].size - i) == end
      decreases ts[t].size - i
    {
      var m, more := Dump(ts, t + n);
      RangeAppend(t, n, m);
      n, visited := n + m, visited + more;
      i := i + 1;
    }
  }

  ghost predicate ListedAt(ts: seq<Token>, i: nat, us: seq<Token>) {
    i + |us| <= |ts| && forall k | 0 <= k < |us| :: ts[i + k] == us[k]
  }

  lemma SplitList(ts: seq<Token>, i: nat, us: seq<Token>, vs: seq<Token>)
    requires ListedAt(ts, i, us + vs)
    ensures ListedAt(ts, i, us) && ListedAt(ts, i + |us|, vs)
  {
    forall k | 0 <= k < |us|
      ensures ts[i + k] == us[k]
    {
      assert (us + vs)[k] == us[k];
    }
    forall k | 0 <= k < |vs|
      ensures ts[i + |us| + k] == vs[k]
    {
      assert (us + vs)[|us| + k] == vs[k];
    }
  }

  /** Wherever the preorder listing of a value stands in a token array, a dump reads exactly that listing. */
  lemma {:induction false} DumpValue(v: Value, pos: nat, ts: seq<Token>, i: nat)
    requires ListedAt(ts, i, Tokens(v, pos))
    ensures DumpFrom(ts, i) == i + Nodes(v)
    decreases v, 1
  {
    assert ts[i] == Tokens(v, pos)[0];
    if v.Arr? {
      DumpArrayValue(v, pos, ts, i);
    } else if v.Obj? {
      DumpObjectValue(v, pos, ts, i);
    }
  }

  lemma {:induction false} DumpArrayValue(v: Value, pos: nat, ts: seq<Token>, i: nat)
    requires v.Arr? && ListedAt(ts, i, Tokens(v, pos)) && ts[i] == Tokens(v, pos)[0]
    ensures DumpFrom(ts, i) == i + Nodes(v)
    decreases v, 0
  {
    SplitList(ts, i, [ts[i]], ItemTokens(v.items, pos + 1));
    DumpAllItems(v.items, pos + 1, ts, i + 1);
  }

  lemma {:induction false} DumpObjectValue(v: Value, pos: nat, ts: seq<Token>, i: nat)
    requires v.Obj? && ListedAt(ts, i, Tokens(v, pos)) && ts[i] == Tokens(v, pos)[0]
    ensures DumpFrom(ts, i) == i + Nodes(v)
    decreases v, 0
  {
    SplitList(ts, i, [ts[i]], MemberTokens(v.members, pos + 1));
    DumpAllMembers(v.members, pos + 1, ts, i + 1);
  }

  lemma {:induction false} DumpAllItems(items: Items, pos: nat, ts: seq<Token>, i: nat)
    requires ListedAt(ts, i, ItemTokens(items, pos))
    ensures DumpItems(ts, i, ItemCount(items)) == i + ItemNodes(items)
    decreases items
  {
    if items.Item? {
      var start := pos + |items.before|;
      var next := start + |Text(items.value)| + |items.after| + 1;
      SplitList(ts, i, Tokens(items.value, start), ItemTokens(items.rest, next));
      DumpValue(items.value, start, ts, i);
      DumpAllItems(items.rest, next, ts, i + Nodes(items.value));
    }
  }

  lemma {:induction false} DumpAllMembers(m: Members, pos: nat, ts: seq<Token>, i: nat)
    requires ListedAt(ts, i, MemberTokens(m, pos))
    ensures DumpMembers(ts, i, MemberCount(m)) == i + MemberNodes(m)
    decreases m
  {
    if m.Member? {
      var start := ValueStart(m, pos);
      var next := start + |Text(m.value)| + |m.after| + 1;
      var key := KeyToken(m, pos, 1);
      SplitList(ts, i, [key] + Tokens(m.value, start), MemberTokens(m.rest, next));
      SplitList(ts, i, [key], Tokens(m.value, start));
      assert ts[i] == [key][0];
      DumpValue(m.value, start, ts, i + 1);
      DumpAllMembers(m.rest, next, ts, i + 1 + Nodes(m.value));
    }
  }

  /**
   For every JSON text, tokenising it and dumping it from the root visits every token: the dump
   gets by with the sizes alone what the text's tree holds.
   */
  lemma DumpOfText(v: Value, lead: string, trail: string)
    requires WellFormed(v) && Spaces(lead) && Spaces(trail)
    ensures var js := lead + Text(v) + trail;
            && Count(js) == Nodes(v)
            && Fill(js, Count(js)) == (State(|js|, -1, Tokens(v, |lead|), Parents(v, 0, -1)), Nodes(v))
            && DumpFrom(Fill(js, Count(js)).0.tokens, 0) == Nodes(v)
  {
    var js := lead + Text(v) + trail;
    RoundTrip.TextRoundTrip(v, lead, trail, Nodes(v), BackwardScan);
    Verdict.FillSucceedsIff(js, Nodes(v));
    Verdict.FillAfterCount(js, Nodes(v));
    DumpValue(v, |lead|, Tokens(v, |lead|), 0);
  }

  /** How the text `{[1]}` tokenises: an array in the place of a label. */
  const LABEL_ARRAY := [Token(Object, 0, 5, 1), Token(Array, 1, 4, 1), Token(Primitive, 2, 3, 0)]

  lemma TokensOfLabelArray()
    ensures Fill("{[1]}", 3) == (State(5, -1, LABEL_ARRAY, [-1, 0, 1]), 3)
  {
    var js := "{[1]}";
    var s1 := State(1, 0, [Token(Object, 0, -1, 0)], [-1]);
    var s2 := State(2, 1, [Token(Object, 0, -1, 1), Token(Array, 1, -1, 0)], [-1, 0]);
    var s3 := State(3, 1, [Token(Object, 0, -1, 1), Token(Array, 1, -1, 1), Token(Primitive, 2, 3, 0)], [-1, 0, 1]);
    var s4 := State(4, 0, [Token(Object, 0, -1, 1), Token(Array, 1, 4, 1), Token(Primitive, 2, 3, 0)], [-1, 0, 1]);
    var s5 := State(5, -1, LABEL_ARRAY, [-1, 0, 1]);
    assert RoundTrip.Reaches(js, INIT, s1, 3, BackwardScan) by {
      RoundTrip.Turn(js, INIT, s1, 3, BackwardScan);
    }
    assert RoundTrip.Reaches(js, s1, s2, 3, BackwardScan) by {
      RoundTrip.Turn(js, s1, s2, 3, BackwardScan);
    }
    assert RoundTrip.Reaches(js, s2, s3, 3, BackwardScan) by {
      JsmnLexing.PrimitiveScanExact(js, 2, 3);
      RoundTrip.Turn(js, s2, s3, 3, BackwardScan);
    }
    assert RoundTrip.Reaches(js, s3, s5, 3, BackwardScan) by {
      RoundTrip.LastOpenFrom(s3.tokens, 1, 3);
      RoundTrip.Turn(js, s3, s4, 3, BackwardScan);
      RoundTrip.LastOpenFrom(s4.tokens, 0, 3);
      RoundTrip.Turn(js, s4, s5, 3, BackwardScan);
      RoundTrip.Chain(js, s3, s4, s5, 3, BackwardScan);
    }
    RoundTrip.Chain(js, INIT, s1, s2, 3, BackwardScan);
    RoundTrip.Chain(js, INIT, s2, s3, 3, BackwardScan);
    RoundTrip.Chain(js, INIT, s3, s5, 3, BackwardScan);
    RoundTrip.NothingOpen(LABEL_ARRAY, 3);
    assert RoundTrip.EndsIn(js, s5, 3, BackwardScan, s5, 3);
    assert RoundTrip.EndsIn(js, INIT, 3, BackwardScan, s5, 3);
  }

  /**
   Outside RFC 8259 a text may tokenise and yet not be safe to dump: the array in the place of a
   label has a size, and the value looked for behind it is not there.
   */
  lemma DumpNeedsLabels() returns (js: string, ts: seq<Token>, root: nat)
    ensures js == "{[1]}" && ts == LABEL_ARRAY && root == 0
    ensures Count(js) == 3 && Fill(js, 3) == (State(5, -1, ts, [-1, 0, 1]), 3)
    ensures DumpFrom(ts, root) == -1
    ensures SurveyValue(ts, root) == Survey(3, 1, 0) && TopLevel(ts) == 1
  {
    js, ts, root := "{[1]}", LABEL_ARRAY, 0;
    LabelArrayCounted(js, ts);
    LabelArrayUnsafe(ts, root);
  }

  // The lemmas below take constants as parameters: on literals, the recursive functions would be
  // unfolded all the way.

  lemma LabelArrayUnsafe(ts: seq<Token>, root: nat)
    requires ts == LABEL_ARRAY && root == 0
    ensures DumpFrom(ts, root) == -1
    ensures SurveyValue(ts, root) == Survey(3, 1, 0) && TopLevel(ts) == 1
  {
    LabelArrayShape(ts);
    LabelArrayReads(ts, root, 1);
  }

  lemma LabelArrayShape(ts: seq<Token>)
    requires ts == LABEL_ARRAY
    ensures |ts| == 3 && ts[0].kind == Object && ts[1].kind == Array && ts[2].kind == Primitive
    ensures ts[0].size == ts[1].size == 1 && ts[2].size == 0
    ensures TopLevel(ts) == 1
  {
    ThreeSizes(ts, 3);
  }

  lemma LabelArrayCounted(js: string, ts: seq<Token>)
    requires js == "{[1]}" && ts == LABEL_ARRAY
    ensures Count(js) == 3 && Fill(js, 3) == (State(5, -1, ts, [-1, 0, 1]), 3)
  {
    TokensOfLabelArray();
    CountOfFill(js, 3);
  }

  /** A fill pass that succeeds makes as many tokens as the count pass counts. */
  lemma CountOfFill(js: string, cap: nat)
    requires Fill(js, cap).1 >= 0
    ensures Count(js) == Fill(js, cap).1
  {
    Verdict.FillSucceedsIff(js, cap);
    Verdict.FillAfterCount(js, cap);
  }

  lemma OneItemRead(ts: seq<Token>, i: nat, n: nat)
    requires n == 1 && i < |ts| && ts[i].kind == Primitive && ts[i].size == 0
    ensures DumpItems(ts, i, n) == i + 1 && SurveyItems(ts, i, n) == Survey(i + 1, 0, 0)
  {
    assert DumpItems(ts, i + 1, n - 1) == i + 1 && SurveyItems(ts, i + 1, n - 1) == Survey(i + 1, 0, 0);
    assert DumpFrom(ts, i) == i + 1 && SurveyValue(ts, i) == Survey(i + 1, 0, 0);
  }

  lemma OneArrayRead(ts: seq<Token>, i: nat, n: nat)
    requires n == 1 && i + 1 < |ts| && ts[i].kind == Array && ts[i].size == n
    requires ts[i + 1].kind == Primitive && ts[i + 1].size == 0
    ensures DumpFrom(ts, i) == i + 2 && SurveyValue(ts, i) == Survey(i + 2, 0, 0)
  {
    OneItemRead(ts, i + 1, n);
  }

  /** A member whose label is an array with children, with nothing behind it. */
  lemma LastMemberRead(ts: seq<Token>, i: nat, n: nat)
    requires n == 1 && i < |ts| && ts[i].kind == Array && ts[i].size > 0
    requires DumpFrom(ts, i) == |ts| && SurveyValue(ts, i) == Survey(|ts|, 0, 0)
    ensures DumpMembers(ts, i, n) == -1 && SurveyMembers(ts, i, n) == Survey(|ts|, 1, 0)
  {
    assert DumpFrom(ts, |ts|) == -1 && SurveyValue(ts, |ts|) == Survey(|ts|, 0, 0);
    assert SurveyMembers(ts, |ts|, n - 1) == Survey(|ts|, 0, 0);
  }

  lemma OneObjectRead(ts: seq<Token>, i: nat, n: nat)
    requires n == 1 && i + 1 < |ts| && ts[i].kind == Object && ts[i].size == n
    requires DumpMembers(ts, i + 1, n) == -1 && SurveyMembers(ts, i + 1, n) == Survey(|ts|, 1, 0)
    ensures DumpFrom(ts, i) == -1 && SurveyValue(ts, i) == Survey(|ts|, 1, 0)
  {}

  lemma LabelArrayReads(ts: seq<Token>, i: nat, n: nat)
    requires n == 1 && |ts| == i + 3
    requires ts[i].kind == Object && ts[i + 1].kind == Array && ts[i + 2].kind == Primitive
    requires ts[i].size == ts[i + 1].size == n && ts[i + 2].size == 0
    ensures DumpFrom(ts, i) == -1 && SurveyValue(ts, i) == Survey(i + 3, 1, 0)
  {
    OneArrayRead(ts, i + 1, n);
    LastMemberRead(ts, i + 1, n);
    OneObjectRead(ts, i, n);
  }

  lemma ThreeSizes(ts: seq<Token>, n: nat)
    requires n == 3 && |ts| == n
    ensures Invariants.SumSizes(ts, n) == ts[0].size + ts[1].size + ts[2].size
  {
    assert Invariants.SumSizes(ts, n - 1) == Invariants.SumSizes(ts, n - 2) + ts[1].size;
    assert Invariants.SumSizes(ts, n - 2) == Invariants.SumSizes(ts, n - 3) + ts[0].size;
  }

  // ---------------------------------------------------------------------------
  // Dumping what is not JSON
  // ---------------------------------------------------------------------------

  /**
   A pass over the tokens in the order of a dump that never leaves the array. It counts the objects
   and arrays with children in the place of a label, each of which has one visit more than its size
   pays for, and the sizes that no visit is made for: those of strings and primitives that are no
   labels, and what a string or primitive has beyond one as a label.
   */
  datatype Survey = Survey(next: nat, misplaced: nat, unspent: int)

  function Plus(a: Survey, b: Survey): Survey {
    Survey(b.next, a.misplaced + b.misplaced, a.unspent + b.unspent)
  }

  function SurveyValue(ts: seq<Token>, i: nat): (s: Survey)
    requires i <= |ts|
    ensures i <= s.next <= |ts|
    decreases |ts| - i, 0, 0
  {
    if i == |ts| then Survey(i, 0, 0)
    else match ts[i].kind
      case Primitive => Survey(i + 1, 0, ts[i].size)
      case String => Survey(i + 1, 0, ts[i].size)
      case Object => SurveyMembers(ts, i + 1, ts[i].size)
      case Array => SurveyItems(ts, i + 1, ts[i].size)
      case Undefined => Survey(i, 0, 0)
  }

  function SurveyItems(ts: seq<Token>, i: nat, n: int): (s: Survey)
    requires i <= |ts|
    ensures i <= s.next <= |ts|
    decreases |ts| - i, 1, n
  {
    if n <= 0 then Survey(i, 0, 0)
    else
      var first := SurveyValue(ts, i);
      Plus(first, SurveyItems(ts, first.next, n - 1))
  }

  /** What a label adds to the survey of the value that it would be elsewhere. */
  function AsLabel(t: Token): Survey {
    Survey(0, if t.IsContainer() && t.size > 0 then 1 else 0, if !t.IsContainer() && t.size > 0 then -1 else 0)
  }

  function SurveyMembers(ts: seq<Token>, i: nat, n: int): (s: Survey)
    requires i <= |ts|
    ensures i <= s.next <= |ts|
    decreases |ts| - i, 1, n
  {
    if n <= 0 || i == |ts| then Survey(i, 0, 0)
    else
      var named := Plus(AsLabel(ts[i]), SurveyValue(ts, i));
      var member := if ts[i].size > 0 then Plus(named, SurveyValue(ts, named.next)) else named;
      Plus(member, SurveyMembers(ts, member.next, n - 1))
  }

  /** What the tokenizer promises of the tokens, and the dump relies on. */
  ghost predicate Countable(ts: seq<Token>) {
    forall i | 0 <= i < |ts| :: ts[i].kind != Undefined && ts[i].size >= 0
  }

  /**
   The account of `n` visits that are due from `i` on, with the visits that they entail: if the dump
   ends at `r`, the visits made are those that were paid for; if it does not, the array ends first.
   */
  ghost predicate Settled(ts: seq<Token>, i: nat, n: int, r: int, s: Survey)
    requires i <= |ts| && s.next <= |ts|
  {
    var due := n + Invariants.SumSizes(ts, s.next) - Invariants.SumSizes(ts, i) + s.misplaced - s.unspent;
    if r == -1 then s.next == |ts| && |ts| - i < due else s.next == r && r - i == due
  }

  lemma {:induction false} ValueSettled(ts: seq<Token>, i: nat)
    requires Countable(ts) && i <= |ts|
    ensures Settled(ts, i, 1, DumpFrom(ts, i), SurveyValue(ts, i))
    decreases |ts| - i, 0, 0
  {
    if i < |ts| {
      assert Invariants.SumSizes(ts, i + 1) == Invariants.SumSizes(ts, i) + ts[i].size;
      match ts[i].kind
      case Object => MembersSettled(ts, i + 1, ts[i].size);
      case Array => ItemsSettled(ts, i + 1, ts[i].size);
      case _ =>
    }
  }

  lemma {:induction false} ItemsSettled(ts: seq<Token>, i: nat, n: nat)
    requires Countable(ts) && i <= |ts|
    ensures Settled(ts, i, n, DumpItems(ts, i, n), SurveyItems(ts, i, n))
    decreases |ts| - i, 1, n
  {
    if n > 0 {
      ValueSettled(ts, i);
      ItemsSettled(ts, SurveyValue(ts, i).next, n - 1);
    }
  }

  lemma {:induction false} MembersSettled(ts: seq<Token>, i: nat, n: nat)
    requires Countable(ts) && i <= |ts|
    ensures Settled(ts, i, n, DumpMembers(ts, i, n), SurveyMembers(ts, i, n))
    decreases |ts| - i, 1, n
  {
    if n > 0 && i < |ts| {
      ValueSettled(ts, i);
      var key := SurveyValue(ts, i).next;
      assert key > i;
      ValueSettled(ts, key);
      if ts[i].size > 0 {
        MembersSettled(ts, SurveyValue(ts, key).next, n - 1);
      } else {
        MembersSettled(ts, key, n - 1);
      }
    }
  }

  /** The tokens that no size counts: those made without a superior. */
  function TopLevel(ts: seq<Token>): int {
    |ts| - Invariants.SumSizes(ts, |ts|)
  }

  /**
   Any text that tokenises into at least one token, JSON or not: a dump from the root stays within
   the tokens if and only if the misplaced labels are fewer than the top-level tokens and the unspent
   sizes together. One bounded pass over the tokens tells.
   */
  lemma DumpOfAnyText(js: string, cap: nat)
    requires Fill(js, cap).1 > 0
    ensures var ts := Fill(js, cap).0.tokens;
            var s := SurveyValue(ts, 0);
            DumpFrom(ts, 0) != -1 <==> s.misplaced < TopLevel(ts) + s.unspent
  {
    var st := Fill(js, cap).0;
    Invariants.FillInvariant(js, cap);
    Invariants.RunCode(js, INIT, cap);
    assert forall i | 0 <= i < |st.tokens| :: st.tokens[i].size == multiset(st.parents)[i];
    ValueSettled(st.tokens, 0);
    if DumpFrom(st.tokens, 0) != -1 {
      Invariants.SizesBehind(st.tokens, st.parents, DumpFrom(st.tokens, 0));
    }
  }
}
