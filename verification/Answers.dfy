/** The JSON answer of docker_running_containers as a tree, and what its search for images counts in it. */
module Answers {
  import opened JsmnMachine
  import opened JsonGrammar
  import opened Wrappers
  import Container
  import JsonHelpers
  import RoundTrip = JsonRoundTrip

  /** What a token shows of its node: whether it is a string, and its text. */
  datatype Node = Node(isString: bool, text: string)

  /** The nodes of a tree in preorder: values, and keys before their values. */
  function Listing(v: Value): (ns: seq<Node>)
    ensures |ns| == Nodes(v)
  {
    match v
    case Str(raw) => [Node(true, raw)]
    case Arr(_, items) => [Node(false, Text(v))] + ItemListing(items)
    case Obj(_, members) => [Node(false, Text(v))] + MemberListing(members)
    case _ => [Node(false, Text(v))]
  }

  function ItemListing(items: Items): (ns: seq<Node>)
    ensures |ns| == ItemNodes(items)
  {
    if items.NoItem? then [] else Listing(items.value) + ItemListing(items.rest)
  }

  function MemberListing(members: Members): (ns: seq<Node>)
    ensures |ns| == MemberNodes(members)
  {
    if members.NoMember? then []
    else [Node(true, members.key)] + Listing(members.value) + MemberListing(members.rest)
  }

  ghost predicate Shows(js: string, t: Token, n: Node) {
    && 0 <= t.start <= t.end <= |js|
    && (t.kind == String <==> n.isString) && JsonHelpers.TokenText(js, t) == n.text
  }

  ghost predicate AllShow(js: string, ts: seq<Token>, ns: seq<Node>) {
    |ts| == |ns| && forall i | 0 <= i < |ts| :: Shows(js, ts[i], ns[i])
  }

  lemma ShowsText(js: string, t: Token, n: Node)
    requires t.start >= 0 && t.end == t.start + |n.text| && RoundTrip.TextAt(js, t.start, n.text)
    requires t.kind == String <==> n.isString
    ensures Shows(js, t, n)
  {
    assert js[t.start..t.end] == n.text;
  }

  lemma ShowConcat(js: string, ts: seq<Token>, ns: seq<Node>, us: seq<Token>, ms: seq<Node>)
    requires AllShow(js, ts, ns) && AllShow(js, us, ms)
    ensures AllShow(js, ts + us, ns + ms)
  {}

  lemma StringShows(js: string, raw: string, pos: nat)
    requires RoundTrip.TextAt(js, pos, "\"" + (raw + "\""))
    ensures Shows(js, Token(String, pos + 1, pos + 1 + |raw|, 0), Node(true, raw))
  {
    RoundTrip.Split(js, pos, "\"", raw + "\"");
    RoundTrip.Split(js, pos + 1, raw, "\"");
    ShowsText(js, Token(String, pos + 1, pos + 1 + |raw|, 0), Node(true, raw));
  }

  lemma FirstShows(js: string, v: Value, pos: nat)
    requires RoundTrip.TextAt(js, pos, Text(v)) && !v.Str?
    ensures Shows(js, Tokens(v, pos)[0], Node(false, Text(v)))
  {
    ShowsText(js, Tokens(v, pos)[0], Node(false, Text(v)));
  }

  /** The tokens of a value, wherever its text stands, show its nodes. */
  lemma {:induction false} TokensShow(js: string, v: Value, pos: nat)
    requires RoundTrip.TextAt(js, pos, Text(v))
    ensures AllShow(js, Tokens(v, pos), Listing(v))
    decreases v, 2
  {
    match v
    case Str(raw) => StringShows(js, raw, pos);
    case Arr(_, _) => ArrayTokensShow(js, v, pos);
    case Obj(_, _) => ObjectTokensShow(js, v, pos);
    case _ => FirstShows(js, v, pos);
  }

  lemma {:induction false} ArrayTokensShow(js: string, v: Value, pos: nat)
    requires v.Arr? && RoundTrip.TextAt(js, pos, Text(v))
    ensures AllShow(js, Tokens(v, pos), Listing(v))
    decreases v, 1
  {
    var t := Tokens(v, pos)[0];
    FirstShows(js, v, pos);
    RoundTrip.Split(js, pos, "[", ArrayRest(v));
    ItemTokensShow(js, v.items, pos + 1);
    ShowConcat(js, [t], [Node(false, Text(v))], ItemTokens(v.items, pos + 1), ItemListing(v.items));
  }

  lemma {:induction false} ObjectTokensShow(js: string, v: Value, pos: nat)
    requires v.Obj? && RoundTrip.TextAt(js, pos, Text(v))
    ensures AllShow(js, Tokens(v, pos), Listing(v))
    decreases v, 1
  {
    var t := Tokens(v, pos)[0];
    FirstShows(js, v, pos);
    RoundTrip.Split(js, pos, "{", ObjectRest(v));
    MemberTokensShow(js, v.members, pos + 1);
    ShowConcat(js, [t], [Node(false, Text(v))], MemberTokens(v.members, pos + 1), MemberListing(v.members));
  }

  /** Where an element and what follows it stand. */
  lemma ItemParts(js: string, items: Items, pos: nat)
    requires items.Item? && RoundTrip.TextAt(js, pos, ItemsText(items))
    ensures var start := pos + |items.before|;
            && RoundTrip.TextAt(js, start, Text(items.value))
            && (items.rest.Item? ==> RoundTrip.TextAt(js, start + |Text(items.value)| + |items.after| + 1, ItemsText(items.rest)))
  {
    var start := pos + |items.before|;
    var next := start + |Text(items.value)|;
    RoundTrip.Split(js, pos, items.before, Text(items.value) + (items.after + ItemsTail(items.rest)));
    RoundTrip.Split(js, start, Text(items.value), items.after + ItemsTail(items.rest));
    RoundTrip.Split(js, next, items.after, ItemsTail(items.rest));
    if items.rest.Item? {
      RoundTrip.Split(js, next + |items.after|, ",", ItemsText(items.rest));
    }
  }

  lemma {:induction false} ItemTokensShow(js: string, items: Items, pos: nat)
    requires items.Item? ==> RoundTrip.TextAt(js, pos, ItemsText(items))
    ensures AllShow(js, ItemTokens(items, pos), ItemListing(items))
    decreases items, 0
  {
    if items.Item? {
      ItemParts(js, items, pos);
      var start := pos + |items.before|;
      var next := start + |Text(items.value)| + |items.after| + 1;
      TokensShow(js, items.value, start);
      ItemTokensShow(js, items.rest, next);
      ShowConcat(js, Tokens(items.value, start), Listing(items.value), ItemTokens(items.rest, next), ItemListing(items.rest));
    }
  }

  /** Where a key and what follows its closing quote stand. */
  lemma KeyParts(js: string, m: Members, pos: nat, more: string)
    requires m.Member? && RoundTrip.TextAt(js, pos, NameText(m, more))
    ensures RoundTrip.TextAt(js, pos + |m.before| + 1, m.key)
    ensures RoundTrip.TextAt(js, pos + |m.before| + 1 + |m.key| + 1, m.gap + (":" + (m.lead + more)))
  {
    var behind := m.gap + (":" + (m.lead + more));
    var p := pos + |m.before|;
    RoundTrip.Split(js, pos, m.before, "\"" + (m.key + ("\"" + behind)));
    RoundTrip.Split(js, p, "\"", m.key + ("\"" + behind));
    RoundTrip.Split(js, p + 1, m.key, "\"" + behind);
    RoundTrip.Split(js, p + 1 + |m.key|, "\"", behind);
  }

  lemma ColonParts(js: string, m: Members, pos: nat, more: string)
    requires m.Member? && RoundTrip.TextAt(js, pos, m.gap + (":" + (m.lead + more)))
    ensures RoundTrip.TextAt(js, pos + |m.gap| + 1 + |m.lead|, more)
  {
    RoundTrip.Split(js, pos, m.gap, ":" + (m.lead + more));
    RoundTrip.Split(js, pos + |m.gap|, ":", m.lead + more);
    RoundTrip.Split(js, pos + |m.gap| + 1, m.lead, more);
  }

  /** Where the key, the value and the members behind it stand. */
  lemma MemberParts(js: string, m: Members, pos: nat)
    requires m.Member? && RoundTrip.TextAt(js, pos, MembersText(m))
    ensures RoundTrip.TextAt(js, pos + |m.before| + 1, m.key)
    ensures RoundTrip.TextAt(js, ValueStart(m, pos), Text(m.value))
    ensures m.rest.Member? ==>
            RoundTrip.TextAt(js, ValueStart(m, pos) + |Text(m.value)| + |m.after| + 1, MembersText(m.rest))
  {
    var tail := m.after + MembersTail(m.rest);
    var start := ValueStart(m, pos);
    KeyParts(js, m, pos, Text(m.value) + tail);
    ColonParts(js, m, pos + |m.before| + 1 + |m.key| + 1, Text(m.value) + tail);
    RoundTrip.Split(js, start, Text(m.value), tail);
    RoundTrip.Split(js, start + |Text(m.value)|, m.after, MembersTail(m.rest));
    if m.rest.Member? {
      RoundTrip.Split(js, start + |Text(m.value)| + |m.after|, ",", MembersText(m.rest));
    }
  }

  lemma {:induction false} MemberTokensShow(js: string, m: Members, pos: nat)
    requires m.Member? ==> RoundTrip.TextAt(js, pos, MembersText(m))
    ensures AllShow(js, MemberTokens(m, pos), MemberListing(m))
    decreases m, 0
  {
    if m.Member? {
      MemberParts(js, m, pos);
      var start := ValueStart(m, pos);
      var next := start + |Text(m.value)| + |m.after| + 1;
      var key := KeyToken(m, pos, 1);
      ShowsText(js, key, Node(true, m.key));
      TokensShow(js, m.value, start);
      MemberTokensShow(js, m.rest, next);
      ShowConcat(js, [key], [Node(true, m.key)], Tokens(m.value, start), Listing(m.value));
      ShowConcat(js, [key] + Tokens(m.value, start), [Node(true, m.key)] + Listing(m.value),
                 MemberTokens(m.rest, next), MemberListing(m.rest));
    }
  }

  // ---------------------------------------------------------------------------
  // Counting in the tree
  // ---------------------------------------------------------------------------

  /** The keys and the string values of a tree that are `name`. */
  function StringsNamed(v: Value, name: string): nat {
    match v
    case Str(raw) => if raw == name then 1 else 0
    case Arr(_, items) => ItemsNamed(items, name)
    case Obj(_, members) => MembersNamed(members, name)
    case _ => 0
  }

  function ItemsNamed(items: Items, name: string): nat {
    if items.NoItem? then 0 else StringsNamed(items.value, name) + ItemsNamed(items.rest, name)
  }

  function MembersNamed(members: Members, name: string): nat {
    if members.NoMember? then 0
    else (if members.key == name then 1 else 0) + StringsNamed(members.value, name) + MembersNamed(members.rest, name)
  }

  predicate Is(n: Node, name: string) {
    n.isString && n.text == name
  }

  ghost function Places(ns: seq<Node>, name: string, n: nat): set<int>
    requires n <= |ns|
  {
    set i | 0 <= i < n && Is(ns[i], name)
  }

  function Occurrences(ns: seq<Node>, name: string, n: nat): nat
    requires n <= |ns|
  {
    if n == 0 then 0 else Occurrences(ns, name, n - 1) + (if Is(ns[n - 1], name) then 1 else 0)
  }

  lemma {:induction false} PlacesCounted(ns: seq<Node>, name: string, n: nat)
    requires n <= |ns|
    ensures |Places(ns, name, n)| == Occurrences(ns, name, n)
  {
    if n == 0 {
      assert Places(ns, name, n) == {};
    } else {
      PlacesCounted(ns, name, n - 1);
      if Is(ns[n - 1], name) {
        assert Places(ns, name, n) == Places(ns, name, n - 1) + {n - 1};
      } else {
        assert Places(ns, name, n) == Places(ns, name, n - 1);
      }
    }
  }

  lemma {:induction false} OccurrencesPrefix(a: seq<Node>, b: seq<Node>, name: string, n: nat)
    requires n <= |a|
    ensures Occurrences(a + b, name, n) == Occurrences(a, name, n)
  {
    if n != 0 {
      OccurrencesPrefix(a, b, name, n - 1);
    }
  }

  lemma {:induction false} OccurrencesConcat(a: seq<Node>, b: seq<Node>, name: string, n: nat)
    requires n <= |b|
    ensures Occurrences(a + b, name, |a| + n) == Occurrences(a, name, |a|) + Occurrences(b, name, n)
  {
    if n == 0 {
      OccurrencesPrefix(a, b, name, |a|);
    } else {
      OccurrencesConcat(a, b, name, n - 1);
    }
  }

  lemma OccurrencesOne(n: Node, name: string)
    ensures Occurrences([n], name, 1) == if Is(n, name) then 1 else 0
  {
    assert Occurrences([n], name, 0) == 0;
  }

  /** A node that is no string in front of others adds no occurrence. */
  lemma OccurrencesBehind(first: Node, ns: seq<Node>, name: string, n: nat)
    requires n == |ns| && !first.isString
    ensures Occurrences([first] + ns, name, n + 1) == Occurrences(ns, name, n)
  {
    OccurrencesOne(first, name);
    OccurrencesConcat([first], ns, name, n);
  }

  lemma {:induction false} ListingNamed(v: Value, name: string)
    ensures Occurrences(Listing(v), name, Nodes(v)) == StringsNamed(v, name)
    decreases v
  {
    match v
    case Arr(_, items) =>
      ItemListingNamed(items, name);
      OccurrencesBehind(Node(false, Text(v)), ItemListing(items), name, ItemNodes(items));
    case Obj(_, members) =>
      MemberListingNamed(members, name);
      OccurrencesBehind(Node(false, Text(v)), MemberListing(members), name, MemberNodes(members));
    case _ =>
      OccurrencesOne(Listing(v)[0], name);
  }

  lemma {:induction false} ItemListingNamed(items: Items, name: string)
    ensures Occurrences(ItemListing(items), name, ItemNodes(items)) == ItemsNamed(items, name)
    decreases items
  {
    if items.Item? {
      ListingNamed(items.value, name);
      ItemListingNamed(items.rest, name);
      OccurrencesConcat(Listing(items.value), ItemListing(items.rest), name, ItemNodes(items.rest));
    }
  }

  lemma {:induction false} MemberListingNamed(m: Members, name: string)
    ensures Occurrences(MemberListing(m), name, MemberNodes(m)) == MembersNamed(m, name)
    decreases m
  {
    if m.Member? {
      var key := [Node(true, m.key)];
      ListingNamed(m.value, name);
      MemberListingNamed(m.rest, name);
      OccurrencesOne(key[0], name);
      OccurrencesConcat(key, Listing(m.value), name, Nodes(m.value));
      OccurrencesConcat(key + Listing(m.value), MemberListing(m.rest), name, MemberNodes(m.rest));
    }
  }

  // ---------------------------------------------------------------------------
  // The search on a tree
  // ---------------------------------------------------------------------------

  /** What the search sees of a tree. */
  function SeenIn(v: Value, name: string): (seen: seq<Container.Seen>)
    ensures |seen| == Nodes(v)
  {
    var ns := Listing(v);
    seq(|ns|, i requires 0 <= i < |ns| => Container.Seen(Is(ns[i], name), ns[i].text))
  }

  /** On every JSON answer: the tokens of the buffer show the nodes of the tree. */
  lemma AnswerShows(v: Value, lead: string, trail: string)
    requires WellFormed(v) && Spaces(lead) && Spaces(trail)
    ensures var js := lead + Text(v) + trail;
            && Container.Tokenises(js) && Container.SpansIn(js, Container.Buffer(js))
            && AllShow(js, Container.Buffer(js), Listing(v))
  {
    var js := lead + Text(v) + trail;
    JsonHelpers.DumpOfText(v, lead, trail);
    Container.SpansOfFill(js, Nodes(v));
    assert Container.Buffer(js) == Tokens(v, |lead|);
    assert RoundTrip.TextAt(js, |lead|, Text(v));
    TokensShow(js, v, |lead|);
  }

  /** On every JSON answer: the tokens that the search sees are the nodes of the tree. */
  lemma AnswerSeen(v: Value, lead: string, trail: string, name: string)
    requires WellFormed(v) && Spaces(lead) && Spaces(trail)
    ensures var js := lead + Text(v) + trail;
            && Container.Tokenises(js) && Container.SpansIn(js, Container.Buffer(js))
            && Container.SeenOf(js, Container.Buffer(js), name) == SeenIn(v, name)
  {
    var js := lead + Text(v) + trail;
    AnswerShows(v, lead, trail);
    SeenShows(js, Container.Buffer(js), v, name);
  }

  lemma SeenShows(js: string, ts: seq<Token>, v: Value, name: string)
    requires Container.SpansIn(js, ts) && AllShow(js, ts, Listing(v))
    ensures Container.SeenOf(js, ts, name) == SeenIn(v, name)
  {
    var seen := Container.SeenOf(js, ts, name);
    forall i | 0 <= i < |ts|
      ensures seen[i] == SeenIn(v, name)[i]
    {
      assert Shows(js, ts[i], Listing(v)[i]);
    }
  }

  /**
   What the search for images puts on a JSON answer, unless it reads past the tokens: something for
   each key and string value "Image" of the tree, except for the answer that is that string alone.
   */
  lemma ImagesInAnswer(v: Value)
    requires !Container.Overreads(SeenIn(v, "Image"))
    ensures var vs := Container.Values(SeenIn(v, "Image"), Container.ShortName);
            |Container.Named(vs, |vs|)| == if v.Str? then 0 else StringsNamed(v, "Image")
  {
    var ns := Listing(v);
    var vs := Container.Values(SeenIn(v, "Image"), Container.ShortName);
    if v.Str? {
      assert Container.Named(vs, |vs|) == {};
    } else {
      NamedAreStrings(v, ns, vs);
      PlacesCounted(ns, "Image", |ns|);
      ListingNamed(v, "Image");
    }
  }

  lemma NamedAreStrings(v: Value, ns: seq<Node>, vs: seq<Option<string>>)
    requires !v.Str? && ns == Listing(v) && vs == Container.Values(SeenIn(v, "Image"), Container.ShortName)
    requires !Container.Overreads(SeenIn(v, "Image"))
    ensures Container.Named(vs, |vs|) == Places(ns, "Image", |ns|)
  {
    var seen := SeenIn(v, "Image");
    assert !ns[0].isString;
    forall i | 0 <= i < |ns|
      ensures i in Container.Named(vs, |vs|) <==> i in Places(ns, "Image", |ns|)
    {
      assert seen[i].named == Is(ns[i], "Image");
      if i < |vs| {
        assert vs[i].Some? <==> i > 0 && seen[i].named;
      }
    }
  }

  // ---------------------------------------------------------------------------
  // The containers of each image
  // ---------------------------------------------------------------------------

  /** `short` is what follows the last slash of `text`, or all of it. */
  predicate IsShortOf(short: string, text: string) {
    && '/' !in short
    && (text == short || (|text| > |short| && text[|text| - |short| - 1..] == "/" + short))
  }

  lemma ShortNameIs(text: string, short: string)
    ensures Container.ShortName(text) == short <==> IsShortOf(short, text)
  {
    Container.ShortNameExact(text);
    var r := Container.ShortName(text);
    if |r| < |text| {
      assert text[|text| - |r| - 1..] == "/" + r;
    }
    if IsShortOf(short, text) {
      SameSuffix(text, r, short);
    }
  }

  lemma SuffixOf(text: string, a: string)
    requires IsShortOf(a, text)
    ensures |a| <= |text| && text[|text| - |a|..] == a && (|a| < |text| ==> text[|text| - |a| - 1] == '/')
    ensures forall k | |text| - |a| <= k < |text| :: text[k] != '/'
  {
    if text != a {
      assert ("/" + a)[1..] == a && text[|text| - |a| - 1..][1..] == text[|text| - |a|..];
      assert ("/" + a)[0] == '/';
    }
    assert text[|text| - |a|..] == a;
    forall k | |text| - |a| <= k < |text|
      ensures text[k] != '/'
    {
      assert text[k] == a[k - (|text| - |a|)];
    }
  }

  /** Two such suffixes are the same. */
  lemma SameSuffix(text: string, a: string, b: string)
    requires IsShortOf(a, text) && IsShortOf(b, text)
    ensures a == b
  {
    SuffixOf(text, a);
    SuffixOf(text, b);
  }

  /** What the token of a value shows. */
  function Shown(v: Value): string {
    if v.Str? then v.raw else Text(v)
  }

  /** The text shown first by what is left of an array or an object, or `next` behind it. */
  function FirstItem(items: Items, next: Option<string>): Option<string> {
    if items.NoItem? then next else Some(Shown(items.value))
  }

  function FirstKey(members: Members, next: Option<string>): Option<string> {
    if members.NoMember? then next else Some(members.key)
  }

  predicate IsImage(text: string, next: Option<string>, name: string) {
    text == "Image" && next.Some? && IsShortOf(name, next.value)
  }

  /**
   The containers of the image `name` in a tree: the keys and string values "Image" whose next key or
   value in the order of the text (`next`, behind the last one) has that short name.
   */
  function ImagesIn(v: Value, name: string, next: Option<string>): nat {
    match v
    case Str(raw) => if IsImage(raw, next, name) then 1 else 0
    case Arr(_, items) => ImagesInItems(items, name, next)
    case Obj(_, members) => ImagesInMembers(members, name, next)
    case _ => 0
  }

  function ImagesInItems(items: Items, name: string, next: Option<string>): nat {
    if items.NoItem? then 0
    else ImagesIn(items.value, name, FirstItem(items.rest, next)) + ImagesInItems(items.rest, name, next)
  }

  function ImagesInMembers(m: Members, name: string, next: Option<string>): nat {
    if m.NoMember? then 0
    else
      (if IsImage(m.key, Some(Shown(m.value)), name) then 1 else 0)
      + ImagesIn(m.value, name, FirstKey(m.rest, next)) + ImagesInMembers(m.rest, name, next)
  }

  /** The text of node `i`, or `next` behind the last. */
  function TextOf(ns: seq<Node>, i: nat, next: Option<string>): Option<string> {
    if i < |ns| then Some(ns[i].text) else next
  }

  predicate ImageAt(ns: seq<Node>, i: nat, next: Option<string>, name: string)
    requires i < |ns|
  {
    ns[i].isString && IsImage(ns[i].text, TextOf(ns, i + 1, next), name)
  }

  /** Their number among the first `n` nodes. */
  function ImagesTo(ns: seq<Node>, n: nat, next: Option<string>, name: string): nat
    requires n <= |ns|
  {
    if n == 0 then 0 else ImagesTo(ns, n - 1, next, name) + (if ImageAt(ns, n - 1, next, name) then 1 else 0)
  }

  lemma {:induction false} ImagesFront(a: seq<Node>, b: seq<Node>, n: nat, next: Option<string>, name: string)
    requires n <= |a|
    ensures ImagesTo(a + b, n, next, name) == ImagesTo(a, n, TextOf(b, 0, next), name)
  {
    if n != 0 {
      ImagesFront(a, b, n - 1, next, name);
    }
  }

  lemma {:induction false} ImagesConcat(a: seq<Node>, b: seq<Node>, n: nat, next: Option<string>, name: string)
    requires n <= |b|
    ensures ImagesTo(a + b, |a| + n, next, name) == ImagesTo(a, |a|, TextOf(b, 0, next), name) + ImagesTo(b, n, next, name)
  {
    if n == 0 {
      ImagesFront(a, b, |a|, next, name);
    } else {
      ImagesConcat(a, b, n - 1, next, name);
    }
  }

  lemma ImagesOne(n: Node, next: Option<string>, name: string)
    ensures ImagesTo([n], 1, next, name) == if n.isString && IsImage(n.text, next, name) then 1 else 0
  {
    assert ImagesTo([n], 0, next, name) == 0;
  }

  lemma ImagesBehind(first: Node, ns: seq<Node>, n: nat, next: Option<string>, name: string)
    requires n == |ns| && !first.isString
    ensures ImagesTo([first] + ns, n + 1, next, name) == ImagesTo(ns, n, next, name)
  {
    ImagesOne(first, TextOf(ns, 0, next), name);
    ImagesConcat([first], ns, n, next, name);
  }

  lemma FirstOfListing(v: Value)
    ensures Listing(v)[0].text == Shown(v)
  {}

  lemma FirstOfItems(items: Items, next: Option<string>)
    ensures TextOf(ItemListing(items), 0, next) == FirstItem(items, next)
  {
    if items.Item? {
      FirstOfListing(items.value);
    }
  }

  lemma {:induction false} ListingImages(v: Value, next: Option<string>, name: string)
    ensures ImagesTo(Listing(v), Nodes(v), next, name) == ImagesIn(v, name, next)
    decreases v
  {
    match v
    case Arr(_, items) =>
      ItemListingImages(items, next, name);
      ImagesBehind(Node(false, Text(v)), ItemListing(items), ItemNodes(items), next, name);
    case Obj(_, members) =>
      MemberListingImages(members, next, name);
      ImagesBehind(Node(false, Text(v)), MemberListing(members), MemberNodes(members), next, name);
    case _ =>
      ImagesOne(Listing(v)[0], next, name);
  }

  lemma {:induction false} ItemListingImages(items: Items, next: Option<string>, name: string)
    ensures ImagesTo(ItemListing(items), ItemNodes(items), next, name) == ImagesInItems(items, name, next)
    decreases items
  {
    if items.Item? {
      FirstOfItems(items.rest, next);
      ListingImages(items.value, FirstItem(items.rest, next), name);
      ItemListingImages(items.rest, next, name);
      ImagesConcat(Listing(items.value), ItemListing(items.rest), ItemNodes(items.rest), next, name);
    }
  }

  lemma {:induction false} MemberListingImages(m: Members, next: Option<string>, name: string)
    ensures ImagesTo(MemberListing(m), MemberNodes(m), next, name) == ImagesInMembers(m, name, next)
    decreases m
  {
    if m.Member? {
      var key, behind := [Node(true, m.key)], TextOf(MemberListing(m.rest), 0, next);
      assert behind == FirstKey(m.rest, next);
      FirstOfListing(m.value);
      ListingImages(m.value, behind, name);
      MemberListingImages(m.rest, next, name);
      ImagesOne(key[0], Some(Shown(m.value)), name);
      ImagesConcat(key, Listing(m.value), Nodes(m.value), behind, name);
      ImagesConcat(key + Listing(m.value), MemberListing(m.rest), MemberNodes(m.rest), next, name);
    }
  }

  /** The nodes, among the first `n`, that are those containers. */
  ghost function ImagePlaces(ns: seq<Node>, n: nat, name: string): set<int>
    requires n <= |ns|
  {
    set i | 0 <= i < n && ImageAt(ns, i, None, name)
  }

  lemma {:induction false} ImagePlacesCounted(ns: seq<Node>, n: nat, name: string)
    requires n <= |ns|
    ensures |ImagePlaces(ns, n, name)| == ImagesTo(ns, n, None, name)
  {
    if n == 0 {
      assert ImagePlaces(ns, n, name) == {};
    } else {
      ImagePlacesCounted(ns, n - 1, name);
      if ImageAt(ns, n - 1, None, name) {
        assert ImagePlaces(ns, n, name) == ImagePlaces(ns, n - 1, name) + {n - 1};
      } else {
        assert ImagePlaces(ns, n, name) == ImagePlaces(ns, n - 1, name);
      }
    }
  }

  lemma FollowedAt(js: string, ts: seq<Token>, ns: seq<Node>, i: nat, name: string)
    requires AllShow(js, ts, ns) && 0 < i < |ns|
    ensures i in Container.FollowedBy(js, ts, "Image", Container.ShortName, name) <==> ImageAt(ns, i, None, name)
  {
    assert Shows(js, ts[i], ns[i]);
    if i + 1 < |ns| {
      assert Shows(js, ts[i + 1], ns[i + 1]);
      ShortNameIs(ns[i + 1].text, name);
    }
  }

  /** The tokens that the search counts for an image are those nodes. */
  lemma FollowedAreImages(js: string, ts: seq<Token>, ns: seq<Node>, name: string)
    requires AllShow(js, ts, ns) && ns != [] && !ImageAt(ns, 0, None, name)
    ensures Container.FollowedBy(js, ts, "Image", Container.ShortName, name) == ImagePlaces(ns, |ns|, name)
  {
    forall i | 0 < i < |ns|
      ensures i in Container.FollowedBy(js, ts, "Image", Container.ShortName, name) <==> ImageAt(ns, i, None, name)
    {
      FollowedAt(js, ts, ns, i, name);
    }
  }

  lemma RootIsNoImage(v: Value, name: string)
    ensures !ImageAt(Listing(v), 0, None, name)
  {}

  /**
   On every JSON answer, with any whitespace, and for every name: the tokens that the search counts for
   it are the containers of that name in the tree.
   */
  lemma AnswerCounted(js: string, v: Value, lead: string, trail: string, name: string)
    requires js == lead + Text(v) + trail && WellFormed(v) && Spaces(lead) && Spaces(trail)
    ensures |Container.FollowedBy(js, Container.Buffer(js), "Image", Container.ShortName, name)| == ImagesIn(v, name, None)
  {
    var ns := Listing(v);
    AnswerShows(v, lead, trail);
    RootIsNoImage(v, name);
    FollowedAreImages(js, Container.Buffer(js), ns, name);
    ImagePlacesCounted(ns, Nodes(v), name);
    ListingImages(v, None, name);
  }

  /** All of them, unless the search reads past the tokens: the keys and string values "Image". */
  lemma AnswerTotal(js: string, v: Value, lead: string, trail: string)
    requires js == lead + Text(v) + trail && WellFormed(v) && Spaces(lead) && Spaces(trail)
    ensures Container.Tokenises(js) && Container.SpansIn(js, Container.Buffer(js))
    ensures !Container.Overreads(Container.SeenOf(js, Container.Buffer(js), "Image")) ==>
            |Container.Followed(js, Container.Buffer(js), "Image")| == if v.Str? then 0 else StringsNamed(v, "Image")
  {
    AnswerSeen(v, lead, trail, "Image");
    Container.NamedAreFollowed(js, Container.Buffer(js), "Image", Container.ShortName);
    if !Container.Overreads(SeenIn(v, "Image")) {
      ImagesInAnswer(v);
    }
  }

  /** The containers of each name, in the tree of an answer. */
  ghost function TreeCount(v: Value): string -> nat {
    name => ImagesIn(v, name, None)
  }

  /**
   What docker_running_containers reports on a JSON answer: the containers of each image of the tree, or
   of the one asked for, and their total. (The report is as `Container.RunningContainers` promises.)
   */
  lemma ReportOfAnswer(js: string, v: Value, lead: string, trail: string, image: Option<string>, r: Container.Report)
    requires js == lead + Text(v) + trail && WellFormed(v) && Spaces(lead) && Spaces(trail)
    requires Container.Tokenises(js) && Container.SpansIn(js, Container.Buffer(js))
    requires !Container.Overreads(Container.SeenOf(js, Container.Buffer(js), "Image"))
    requires Container.Counted(Container.ImageCount(js, Container.Buffer(js)),
                               |Container.Followed(js, Container.Buffer(js), "Image")|, image, r)
    ensures Container.Counted(TreeCount(v), if v.Str? then 0 else StringsNamed(v, "Image"), image, r)
  {
    var ts := Container.Buffer(js);
    AnswerTotal(js, v, lead, trail);
    forall name: string
      ensures Container.ImageCount(js, ts)(name) == TreeCount(v)(name)
    {
      AnswerCounted(js, v, lead, trail, name);
    }
    Container.SameCounted(Container.ImageCount(js, ts), TreeCount(v), |Container.Followed(js, ts, "Image")|, image, r);
  }

  // ---------------------------------------------------------------------------
  // Two answers
  // ---------------------------------------------------------------------------

  /** The tree of `["Image"]`, and that of `{"Image":"a/b"}`. */
  const LONE_IMAGE := Arr("", Item("", Str("Image"), "", NoItem))
  const SLASHED_IMAGE := Obj("", Member("", "Image", "", "", Str("a/b"), "", NoMember))

  lemma TwoTexts()
    ensures Text(LONE_IMAGE) == "[\"Image\"]"
    ensures Text(SLASHED_IMAGE) == "{\"Image\":\"a/b\"}"
  {
    assert Text(Str("Image")) == "\"Image\"";
    assert Text(Str("a/b")) == "\"a/b\"";
  }

  // Below, a tree is a parameter: on a constant, the recursive functions would be unfolded all the way.

  lemma LoneImage(v: Value)
    requires v == LONE_IMAGE
    ensures WellFormed(v) && Container.Overreads(SeenIn(v, "Image"))
  {
    assert Listing(v)[1] == Node(true, "Image");
  }

  /** An answer without whitespace around it. */
  lemma BareAnswer(js: string, v: Value)
    requires js == Text(v) && WellFormed(v)
    ensures Container.Tokenises(js) && Container.SpansIn(js, Container.Buffer(js))
    ensures Container.SeenOf(js, Container.Buffer(js), "Image") == SeenIn(v, "Image")
    ensures forall name :: |Container.FollowedBy(js, Container.Buffer(js), "Image", Container.ShortName, name)| == ImagesIn(v, name, None)
  {
    assert js == "" + js + "";
    AnswerSeen(v, "", "", "Image");
    forall name: string {
      AnswerCounted(js, v, "", "", name);
    }
  }

  /** The search reads past the tokens of the first. */
  lemma SearchOverreads(js: string, v: Value)
    requires v == LONE_IMAGE && js == Text(v)
    ensures Container.Tokenises(js) && Container.SpansIn(js, Container.Buffer(js))
    ensures Container.Overreads(Container.SeenOf(js, Container.Buffer(js), "Image"))
  {
    LoneImage(v);
    BareAnswer(js, v);
  }

  /** In the second there is one container of the image "a/b", under "b", and asking for "a/b" does not find it. */
  lemma SlashedImage(js: string, v: Value)
    requires v == SLASHED_IMAGE && js == Text(v)
    ensures Container.Tokenises(js) && Container.SpansIn(js, Container.Buffer(js))
    ensures !Container.Overreads(Container.SeenOf(js, Container.Buffer(js), "Image"))
    ensures var ts := Container.Buffer(js);
            && |Container.FollowedBy(js, ts, "Image", Container.ShortName, "b")| == 1
            && |Container.FollowedBy(js, ts, "Image", Container.ShortName, "a/b")| == 0
  {
    SlashedListing(v);
    SlashedTree(v);
    BareAnswer(js, v);
  }

  lemma SlashedListing(v: Value)
    requires v == SLASHED_IMAGE
    ensures WellFormed(v) && !Container.Overreads(SeenIn(v, "Image"))
  {
    assert |Listing(v)| == 3 && Listing(v)[2] == Node(true, "a/b");
  }

  lemma SlashedTree(v: Value)
    requires v == SLASHED_IMAGE
    ensures ImagesIn(v, "b", None) == 1 && ImagesIn(v, "a/b", None) == 0
  {
    assert "a/b"[1..] == "/" + "b";
    assert !IsShortOf("a/b", "a/b") by {
      assert "a/b"[1] == '/';
    }
  }
}
