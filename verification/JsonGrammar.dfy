/**
 JSON texts by RFC 8259, as concrete syntax trees: a tree holds the whitespace, digits and raw
 string interiors of one particular text. `Tokens` is the preorder listing of a tree that the
 tokenizer promises.
 */
module JsonGrammar {
  import opened JsmnMachine
  import opened RfcTerminals

  datatype Value =
    | Null
    | False
    | True
    | Number(minus: bool, whole: string, frac: string, exp: string)
    | Str(raw: string)
    | Arr(pad: string, items: Items)
    | Obj(pad: string, members: Members)

  /** The elements of an array; `before` and `after` are the whitespace around one. */
  datatype Items = NoItem | Item(before: string, value: Value, after: string, rest: Items)

  /** The members of an object: whitespace stands before and after the key and the value. */
  datatype Members =
    | NoMember
    | Member(before: string, key: string, gap: string, lead: string, value: Value, after: string, rest: Members)

  predicate Spaces(s: string) {
    forall i | 0 <= i < |s| :: IsWhitespace(s[i])
  }

  predicate Digits(s: string) {
    s != "" && forall i | 0 <= i < |s| :: '0' <= s[i] <= '9'
  }

  /** Section 6 of RFC 8259: no leading zeros. */
  predicate IsInt(s: string) {
    Digits(s) && (s[0] == '0' ==> |s| == 1)
  }

  predicate IsFrac(s: string) {
    s == "" || (s[0] == '.' && Digits(s[1..]))
  }

  predicate IsExp(s: string) {
    s == "" || ((s[0] == 'e' || s[0] == 'E') && |s| > 1
                && (Digits(s[1..]) || ((s[1] == '+' || s[1] == '-') && Digits(s[2..]))))
  }

  predicate WellFormed(v: Value) {
    match v
    case Null | False | True => true
    case Number(_, whole, frac, exp) => IsInt(whole) && IsFrac(frac) && IsExp(exp)
    case Str(raw) => IsRfcString(raw)
    case Arr(pad, items) => Spaces(pad) && WellFormedItems(items)
    case Obj(pad, members) => Spaces(pad) && WellFormedMembers(members)
  }

  predicate WellFormedItems(items: Items) {
    match items
    case NoItem => true
    case Item(before, value, after, rest) =>
      Spaces(before) && WellFormed(value) && Spaces(after) && WellFormedItems(rest)
  }

  predicate WellFormedMembers(members: Members) {
    match members
    case NoMember => true
    case Member(before, key, gap, lead, value, after, rest) =>
      && Spaces(before) && IsRfcString(key) && Spaces(gap) && Spaces(lead)
      && WellFormed(value) && Spaces(after) && WellFormedMembers(rest)
  }

  predicate IsLiteral(v: Value) {
    v.Null? || v.False? || v.True? || v.Number?
  }

  function LiteralText(v: Value): string
    requires IsLiteral(v)
  {
    match v
    case Null => "null"
    case False => "false"
    case True => "true"
    case Number(minus, whole, frac, exp) => (if minus then "-" else "") + whole + frac + exp
  }

  function Text(v: Value): (s: string)
    ensures IsLiteral(v) ==> s == LiteralText(v)
    decreases v, 1
  {
    match v
    case Str(raw) => "\"" + (raw + "\"")
    case Arr(_, _) => "[" + ArrayRest(v)
    case Obj(_, _) => "{" + ObjectRest(v)
    case _ => LiteralText(v)
  }

  function ArrayRest(v: Value): string
    requires v.Arr?
    decreases v, 0
  {
    if v.items.NoItem? then v.pad + "]" else ItemsText(v.items)
  }

  function ObjectRest(v: Value): string
    requires v.Obj?
    decreases v, 0
  {
    if v.members.NoMember? then v.pad + "}" else MembersText(v.members)
  }

  /** From after the opening bracket, or a comma, to the closing bracket. */
  function ItemsText(items: Items): string
    requires items.Item?
    decreases items, 0
  {
    items.before + (Text(items.value) + (items.after + ItemsTail(items.rest)))
  }

  function ItemsTail(items: Items): string
    decreases items, 1
  {
    if items.NoItem? then "]" else "," + ItemsText(items)
  }

  function MembersText(members: Members): string
    requires members.Member?
    decreases members, 0
  {
    NameText(members, Text(members.value) + (members.after + MembersTail(members.rest)))
  }

  function MembersTail(members: Members): string
    decreases members, 1
  {
    if members.NoMember? then "}" else "," + MembersText(members)
  }

  /** The key of the first member and its colon, before `more`. */
  function NameText(members: Members, more: string): string
    requires members.Member?
  {
    members.before + ("\"" + (members.key + ("\"" + (members.gap + (":" + (members.lead + more))))))
  }

  function ItemCount(items: Items): nat {
    if items.NoItem? then 0 else 1 + ItemCount(items.rest)
  }

  function MemberCount(members: Members): nat {
    if members.NoMember? then 0 else 1 + MemberCount(members.rest)
  }

  /** The number of values and keys in a tree. */
  function Nodes(v: Value): (n: nat)
    ensures n >= 1
  {
    match v
    case Arr(_, items) => 1 + ItemNodes(items)
    case Obj(_, members) => 1 + MemberNodes(members)
    case _ => 1
  }

  function ItemNodes(items: Items): nat {
    if items.NoItem? then 0 else Nodes(items.value) + ItemNodes(items.rest)
  }

  function MemberNodes(members: Members): nat {
    if members.NoMember? then 0 else 1 + Nodes(members.value) + MemberNodes(members.rest)
  }

  /**
   The tokens of a value whose text starts at `pos`, in preorder: an array counts its elements, an
   object its members, a key its one value; the span of a string leaves out the quotes.
   */
  function Tokens(v: Value, pos: nat): (ts: seq<Token>)
    ensures |ts| == Nodes(v)
    ensures forall i | 0 <= i < |ts| :: ts[i].end >= 0
  {
    match v
    case Str(raw) => [Token(String, pos + 1, pos + 1 + |raw|, 0)]
    case Arr(_, items) => [Token(Array, pos, pos + |Text(v)|, ItemCount(items))] + ItemTokens(items, pos + 1)
    case Obj(_, members) => [Token(Object, pos, pos + |Text(v)|, MemberCount(members))] + MemberTokens(members, pos + 1)
    case _ => [Token(Primitive, pos, pos + |Text(v)|, 0)]
  }

  function ItemTokens(items: Items, pos: nat): (ts: seq<Token>)
    ensures |ts| == ItemNodes(items)
    ensures forall i | 0 <= i < |ts| :: ts[i].end >= 0
  {
    if items.NoItem? then []
    else
      var start := pos + |items.before|;
      Tokens(items.value, start) + ItemTokens(items.rest, start + |Text(items.value)| + |items.after| + 1)
  }

  function KeyToken(members: Members, pos: nat, size: nat): Token
    requires members.Member?
  {
    var start := pos + |members.before| + 1;
    Token(String, start, start + |members.key|, size)
  }

  /** Where the text of the first member's value starts. */
  function ValueStart(members: Members, pos: nat): nat
    requires members.Member?
  {
    pos + |members.before| + 1 + |members.key| + 1 + |members.gap| + 1 + |members.lead|
  }

  function MemberTokens(members: Members, pos: nat): (ts: seq<Token>)
    ensures |ts| == MemberNodes(members)
    ensures forall i | 0 <= i < |ts| :: ts[i].end >= 0
  {
    if members.NoMember? then []
    else
      var start := ValueStart(members, pos);
      [KeyToken(members, pos, 1)] + Tokens(members.value, start)
      + MemberTokens(members.rest, start + |Text(members.value)| + |members.after| + 1)
  }

  /** The superiors of those tokens, when the first of them has index `base` and superior `owner`. */
  function Parents(v: Value, base: nat, owner: int): (ps: seq<int>)
    requires -1 <= owner < base
    ensures |ps| == Nodes(v) && forall i | 0 <= i < |ps| :: owner <= ps[i] < base + i
  {
    match v
    case Arr(_, items) => [owner] + ItemParents(items, base + 1, base)
    case Obj(_, members) => [owner] + MemberParents(members, base + 1, base)
    case _ => [owner]
  }

  function ItemParents(items: Items, base: nat, owner: nat): (ps: seq<int>)
    requires owner < base
    ensures |ps| == ItemNodes(items) && forall i | 0 <= i < |ps| :: owner <= ps[i] < base + i
  {
    if items.NoItem? then []
    else Parents(items.value, base, owner) + ItemParents(items.rest, base + Nodes(items.value), owner)
  }

  function MemberParents(members: Members, base: nat, owner: nat): (ps: seq<int>)
    requires owner < base
    ensures |ps| == MemberNodes(members) && forall i | 0 <= i < |ps| :: owner <= ps[i] < base + i
  {
    if members.NoMember? then []
    else
      [owner] + Parents(members.value, base + 1, base)
      + MemberParents(members.rest, base + 1 + Nodes(members.value), owner)
  }
}
