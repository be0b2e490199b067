/**
 lib/container.c: counting the running containers by image. The tokens of the JSON answer are
 folded into a table of counters, one per image.
 */
module Container {
  import opened JsmnMachine
  import JsmnInvariants
  import JsmnVerdict
  import opened JsonHelpers
  import opened Collection
  import opened Runs
  import opened Words
  import opened Wrappers

  /** Where the last portion of a text starts: behind the last slash among the first `n` characters, if any. */
  function AfterSlash(text: string, n: nat): (r: nat)
    requires n <= |text|
    ensures r <= n && (r > 0 ==> text[r - 1] == '/')
    ensures forall i | r <= i < n :: text[i] != '/'
  {
    if n == 0 || text[n - 1] == '/' then n else AfterSlash(text, n - 1)
  }

  /** image_shortname */
  function ShortName(image: string): string {
    image[AfterSlash(image, |image|)..]
  }

  /** What follows the last slash, or the whole name. */
  lemma ShortNameExact(image: string)
    ensures var r := ShortName(image);
            && '/' !in r && |r| <= |image| && image[|image| - |r|..] == r
            && (|r| < |image| ==> image[|image| - |r| - 1] == '/')
  {}

  ghost predicate SpansIn(json: string, ts: seq<Token>) {
    forall i | 0 <= i < |ts| :: 0 <= ts[i].start <= ts[i].end <= |json|
  }

  /** The spans of a successful fill pass lie in its text. */
  lemma SpansOfFill(js: string, cap: nat)
    requires Fill(js, cap).1 >= 0
    ensures SpansIn(js, Fill(js, cap).0.tokens)
  {
    JsmnInvariants.FillInvariant(js, cap);
  }

  /** What the search sees of a token: whether it is the name searched for, and its text. */
  datatype Seen = Seen(named: bool, text: string)

  function SeenOf(json: string, ts: seq<Token>, name: string): (seen: seq<Seen>)
    requires SpansIn(json, ts)
    ensures |seen| == |ts|
    ensures forall i | 0 <= i < |ts| :: seen[i].named <==> ts[i].kind == String && TokenText(json, ts[i]) == name
    ensures forall i | 0 <= i < |ts| :: seen[i].text == TokenText(json, ts[i])
  {
    seq(|ts|, i requires 0 <= i < |ts| => Seen(TokenStreq(json, ts[i], name) == 0, TokenText(json, ts[i])))
  }

  /**
   What each turn of the search puts, if anything. Token 0 gets no turn, and the last token has no
   successor to put.
   */
  function Values(seen: seq<Seen>, convert: string -> string): (vs: seq<Option<string>>)
    ensures |vs| == if seen == [] then 0 else |seen| - 1
  {
    seq(if seen == [] then 0 else |seen| - 1,
        i requires 0 <= i < |seen| - 1 => if i > 0 && seen[i].named then Some(convert(seen[i + 1].text)) else None)
  }

  function PutOf(v: Option<string>, increment: Ulong): seq<(string, Ulong)> {
    if v.Some? then [(v.value, increment)] else []
  }

  /** The puts of the first `n` turns. */
  function Puts(vs: seq<Option<string>>, increment: Ulong, n: nat): seq<(string, Ulong)>
    requires n <= |vs|
  {
    if n == 0 then [] else Puts(vs, increment, n - 1) + PutOf(vs[n - 1], increment)
  }

  /** The puts of a whole search. */
  function AllPuts(vs: seq<Option<string>>, increment: Ulong): seq<(string, Ulong)> {
    Puts(vs, increment, |vs|)
  }

  /** The turns that put something, among the first `n`. */
  ghost function Named(vs: seq<Option<string>>, n: nat): set<int>
    requires n <= |vs|
  {
    set i | 0 <= i < n && vs[i].Some?
  }

  /** The turns that put `value`, among the first `n`. */
  ghost function Hits(vs: seq<Option<string>>, value: string, n: nat): set<int>
    requires n <= |vs|
  {
    set i | 0 <= i < n && vs[i] == Some(value)
  }

  lemma HitsGrow(vs: seq<Option<string>>, value: string, n: nat)
    requires n < |vs|
    ensures Hits(vs, value, n + 1) == Hits(vs, value, n) + (if vs[n] == Some(value) then {n} else {})
    ensures |Hits(vs, value, n + 1)| == |Hits(vs, value, n)| + (if vs[n] == Some(value) then 1 else 0)
  {
    if vs[n] == Some(value) {
      assert Hits(vs, value, n + 1) == Hits(vs, value, n) + {n};
    } else {
      assert Hits(vs, value, n + 1) == Hits(vs, value, n);
    }
  }

  lemma HitsCount(vs: seq<Option<string>>, value: string, n: nat)
    requires n < |vs|
    ensures |Hits(vs, value, n + 1)| == |Hits(vs, value, n)| + (if vs[n] == Some(value) then 1 else 0)
  {
    HitsGrow(vs, value, n);
  }

  lemma SomeHit(vs: seq<Option<string>>, value: string, n: nat)
    requires n < |vs|
    ensures Hits(vs, value, n + 1) != {} <==> Hits(vs, value, n) != {} || vs[n] == Some(value)
  {
    HitsGrow(vs, value, n);
  }

  lemma NamedGrow(vs: seq<Option<string>>, n: nat)
    requires n < |vs|
    ensures |Named(vs, n + 1)| == |Named(vs, n)| + (if vs[n].Some? then 1 else 0)
  {
    if vs[n].Some? {
      assert Named(vs, n + 1) == Named(vs, n) + {n};
    } else {
      assert Named(vs, n + 1) == Named(vs, n);
    }
  }

  lemma PutAddsUp(run: seq<(string, Ulong)>, v: Option<string>, increment: Ulong, key: string)
    ensures SumFor(run + PutOf(v, increment), key) == SumFor(run, key) + (if v == Some(key) then increment else 0)
  {
    if v.Some? {
      assert (run + PutOf(v, increment))[..|run|] == run;
    } else {
      assert run + PutOf(v, increment) == run;
    }
  }

  lemma PutIsIn(run: seq<(string, Ulong)>, all: seq<(string, Ulong)>, v: Option<string>, increment: Ulong, key: string)
    requires all == run + PutOf(v, increment)
    ensures IsIn(all, key) <==> IsIn(run, key) || v == Some(key)
  {
    if v.Some? {
      assert all[..|run|] == run;
      IsInLast(all, key);
    } else {
      assert all == run;
    }
  }

  lemma OnceMore(increment: int, sum: int, hits: int, more: bool)
    requires sum == increment * hits
    ensures sum + (if more then increment else 0) == increment * (hits + (if more then 1 else 0))
  {}

  lemma OneMoreCounted(run: seq<(string, Ulong)>, vs: seq<Option<string>>, increment: Ulong, n: nat, value: string)
    requires n < |vs| && SumFor(run, value) == increment * |Hits(vs, value, n)|
    ensures SumFor(run + PutOf(vs[n], increment), value) == increment * |Hits(vs, value, n + 1)|
  {
    OnceMore(increment, SumFor(run, value), |Hits(vs, value, n)|, vs[n] == Some(value));
    PutAddsUp(run, vs[n], increment, value);
    HitsCount(vs, value, n);
  }

  /** The increments for one value: as many as there are turns that put it. */
  lemma {:induction false} PutsCountHits(vs: seq<Option<string>>, increment: Ulong, n: nat, value: string)
    requires n <= |vs|
    ensures SumFor(Puts(vs, increment, n), value) == increment * |Hits(vs, value, n)|
  {
    if n != 0 {
      PutsCountHits(vs, increment, n - 1, value);
      OneMoreCounted(Puts(vs, increment, n - 1), vs, increment, n - 1, value);
    }
  }

  lemma {:induction false} PutsAreHits(vs: seq<Option<string>>, increment: Ulong, n: nat, value: string)
    requires n <= |vs|
    ensures IsIn(Puts(vs, increment, n), value) <==> Hits(vs, value, n) != {}
  {
    if n != 0 {
      PutsAreHits(vs, increment, n - 1, value);
      PutIsIn(Puts(vs, increment, n - 1), Puts(vs, increment, n), vs[n - 1], increment, value);
      SomeHit(vs, value, n - 1);
    }
  }

  /** With increments of one: as many puts as turns that put something. */
  lemma {:induction false} PutsAreNamed(vs: seq<Option<string>>, n: nat)
    requires n <= |vs|
    ensures |Puts(vs, 1, n)| == |Named(vs, n)|
    ensures forall i | 0 <= i < |Puts(vs, 1, n)| :: Puts(vs, 1, n)[i].1 == 1
  {
    if n == 0 {
      assert Named(vs, n) == {};
    } else {
      PutsAreNamed(vs, n - 1);
      NamedGrow(vs, n - 1);
    }
  }

  /** What a run of puts leaves for each value. */
  lemma PutsLeave(vs: seq<Option<string>>, increment: Ulong, value: string)
    ensures var counts := PutAll(AllPuts(vs, increment)).counts;
            && (value in counts <==> Hits(vs, value, |vs|) != {})
            && (value in counts ==> counts[value] == increment * |Hits(vs, value, |vs|)| % ULONG)
  {
    PutsCountHits(vs, increment, |vs|, value);
    PutsAreHits(vs, increment, |vs|, value);
    PutAllCounts(AllPuts(vs, increment), value);
  }

  // The same by the tokens alone.

  /** Token `t` is a string with the text `name`. */
  predicate IsNamed(json: string, t: Token, name: string) {
    t.kind == String && 0 <= t.start <= t.end <= |json| && json[t.start..t.end] == name
  }

  /** The text of token `t` converts to `value`. */
  predicate ConvertsTo(json: string, t: Token, convert: string -> string, value: string) {
    0 <= t.start <= t.end <= |json| && convert(json[t.start..t.end]) == value
  }

  /** The tokens after the first that are `name` and have a successor. */
  ghost function Followed(json: string, ts: seq<Token>, name: string): set<int> {
    set i | 1 <= i < |ts| - 1 && IsNamed(json, ts[i], name)
  }

  /** Those whose successor converts to `value`. */
  ghost function FollowedBy(json: string, ts: seq<Token>, name: string, convert: string -> string, value: string): set<int> {
    set i | 1 <= i < |ts| - 1 && IsNamed(json, ts[i], name) && ConvertsTo(json, ts[i + 1], convert, value)
  }

  lemma HitsAreFollowed(json: string, ts: seq<Token>, name: string, convert: string -> string, value: string)
    requires SpansIn(json, ts)
    ensures var vs := Values(SeenOf(json, ts, name), convert);
            Hits(vs, value, |vs|) == FollowedBy(json, ts, name, convert, value)
  {
    var seen := SeenOf(json, ts, name);
    var vs := Values(seen, convert);
    forall i | 0 <= i < |vs|
      ensures vs[i] == Some(value) <==> i in FollowedBy(json, ts, name, convert, value)
    {
      assert seen[i].named <==> IsNamed(json, ts[i], name);
      assert seen[i + 1].text == json[ts[i + 1].start..ts[i + 1].end];
    }
  }

  lemma NamedAreFollowed(json: string, ts: seq<Token>, name: string, convert: string -> string)
    requires SpansIn(json, ts)
    ensures var vs := Values(SeenOf(json, ts, name), convert);
            Named(vs, |vs|) == Followed(json, ts, name)
  {
    var seen := SeenOf(json, ts, name);
    var vs := Values(seen, convert);
    forall i | 0 <= i < |vs|
      ensures vs[i].Some? <==> i in Followed(json, ts, name)
    {
      assert seen[i].named <==> IsNamed(json, ts[i], name);
    }
  }

  /**
   What a search leaves for each value: nothing if no token of the name has a successor that converts to
   it, and else the increment times the number of those tokens, as an unsigned long.
   */
  lemma SearchCounts(json: string, ts: seq<Token>, name: string, convert: string -> string, increment: Ulong, value: string)
    requires SpansIn(json, ts)
    ensures var counts := PutAll(AllPuts(Values(SeenOf(json, ts, name), convert), increment)).counts;
            var found := FollowedBy(json, ts, name, convert, value);
            (value in counts <==> found != {}) && (value in counts ==> counts[value] == increment * |found| % ULONG)
  {
    PutsLeave(Values(SeenOf(json, ts, name), convert), increment, value);
    HitsAreFollowed(json, ts, name, convert, value);
  }

  /** A table holds just that. */
  ghost predicate CountsFollowed(counts: map<string, Ulong>, json: string, ts: seq<Token>, name: string,
                                 convert: string -> string, increment: Ulong) {
    forall value :: var found := FollowedBy(json, ts, name, convert, value);
      (value in counts <==> found != {}) && (value in counts ==> counts[value] == increment * |found| % ULONG)
  }

  lemma AllCounted(t: Counter, json: string, ts: seq<Token>, name: string, convert: string -> string, increment: Ulong)
    requires SpansIn(json, ts) && t == PutAll(AllPuts(Values(SeenOf(json, ts, name), convert), increment))
    ensures CountsFollowed(t.counts, json, ts, name, convert, increment)
  {
    forall value: string {
      SearchCounts(json, ts, name, convert, increment, value);
    }
  }

  /** The search reads past the tokens exactly when the last of them is the name searched for. */
  predicate Overreads(seen: seq<Seen>) {
    |seen| > 1 && seen[|seen| - 1].named
  }

  /**
   docker_json_parser_search, after the tokenising. `convert` is the identity where the source
   passes NULL. None: the source would read the token behind the last one.
   */
  method Search(json: string, ts: seq<Token>, name: string, convert: string -> string, increment: Ulong)
      returns (r: Option<HashTable>)
    requires SpansIn(json, ts)
    ensures r == None <==> Overreads(SeenOf(json, ts, name))
    ensures r.Some? ==>
            && fresh(r.value) && r.value.Valid()
            && r.value.View() == PutAll(AllPuts(Values(SeenOf(json, ts, name), convert), increment))
    ensures r.Some? ==> CountsFollowed(r.value.counts, json, ts, name, convert, increment)
  {
    var hashtable := new HashTable();
    var i := 1;
    ghost var seen := SeenOf(json, ts, name);
    ghost var vs := Values(seen, convert);
    NoPutAtFirst(seen, convert, increment);
    while i < |ts|
      invariant 1 <= i && (i <= |ts| || ts == [])
      invariant fresh(hashtable) && fresh(hashtable.table) && fresh(hashtable.nodes) && hashtable.Valid()
      invariant hashtable.View() == PutAll(PutsBefore(vs, increment, i))
      invariant i == |ts| ==> !Overreads(seen)
    {
      var over := Turn(json, ts, name, convert, increment, hashtable, i, seen, vs);
      if over {
        return None;
      }
      i := i + 1;
    }
    AllCounted(hashtable.View(), json, ts, name, convert, increment);
    return Some(hashtable);
  }

  /** The puts that the search has made before turn `i`. */
  function PutsBefore(vs: seq<Option<string>>, increment: Ulong, i: nat): seq<(string, Ulong)> {
    Puts(vs, increment, if i < |vs| then i else |vs|)
  }

  lemma NoPutAtFirst(seen: seq<Seen>, convert: string -> string, increment: Ulong)
    ensures PutsBefore(Values(seen, convert), increment, 1) == []
  {
    var vs := Values(seen, convert);
    if vs != [] {
      assert vs[0] == None;
      assert Puts(vs, increment, 1) == Puts(vs, increment, 0) + PutOf(vs[0], increment);
    }
  }

  /** One turn of the search, or `over` where its read would be beyond the tokens. */
  method Turn(json: string, ts: seq<Token>, name: string, convert: string -> string, increment: Ulong,
              hashtable: HashTable, i: nat, ghost seen: seq<Seen>, ghost vs: seq<Option<string>>) returns (over: bool)
    requires SpansIn(json, ts) && 1 <= i < |ts| && seen == SeenOf(json, ts, name) && vs == Values(seen, convert)
    requires hashtable.Valid() && hashtable.View() == PutAll(PutsBefore(vs, increment, i))
    modifies hashtable, hashtable.table, hashtable.nodes
    ensures hashtable.Valid() && hashtable.table == old(hashtable.table)
    ensures fresh(hashtable.nodes - old(hashtable.nodes))
    ensures over <==> i + 1 == |ts| && Overreads(seen)
    ensures !over ==> hashtable.View() == PutAll(PutsBefore(vs, increment, i + 1))
  {
    ghost var puts := PutsBefore(vs, increment, i);
    if TokenStreq(json, ts[i], name) == 0 {
      if i + 1 >= |ts| {
        return true;
      }
      var value := convert(TokenText(json, ts[i + 1]));
      assert vs[i] == Some(value);
      assert PutsBefore(vs, increment, i + 1) == puts + [(value, increment)];
      PutOnce(hashtable, value, increment, puts);
    } else {
      assert i < |vs| ==> vs[i] == None;
      assert PutsBefore(vs, increment, i + 1) == puts;
    }
    return false;
  }

  method PutOnce(hashtable: HashTable, key: string, increment: Ulong, ghost puts: seq<(string, Ulong)>)
    requires hashtable.Valid() && hashtable.View() == PutAll(puts)
    modifies hashtable, hashtable.table, hashtable.nodes
    ensures hashtable.Valid() && hashtable.table == old(hashtable.table)
    ensures fresh(hashtable.nodes - old(hashtable.nodes))
    ensures hashtable.View() == PutAll(puts + [(key, increment)])
  {
    var _ := hashtable.Put(key, increment);
    assert (puts + [(key, increment)])[..|puts|] == puts;
  }

  /** What docker_running_containers reports: the number, and one entry per image with their total. */
  datatype Report = Failed | OneImage(running: Uint) | AllImages(entries: seq<(string, Ulong)>, total: Uint)

  predicate InTable(counts: map<string, Ulong>, keys: seq<string>) {
    forall j | 0 <= j < |keys| :: keys[j] in counts
  }

  function EntryOf(counts: map<string, Ulong>, key: string, shorten: string -> string): (string, Ulong)
    requires key in counts
  {
    (shorten(key), counts[key])
  }

  /** The perfdata entries: in the order of insertion, with the names shortened. */
  function Entries(counts: map<string, Ulong>, keys: seq<string>, shorten: string -> string): (r: seq<(string, Ulong)>)
    requires InTable(counts, keys)
    ensures |r| == |keys|
    ensures forall j | 0 <= j < |keys| :: r[j] == EntryOf(counts, keys[j], shorten)
  {
    seq(|keys|, j requires 0 <= j < |keys| => EntryOf(counts, keys[j], shorten))
  }

  lemma KeysInTable(counts: map<string, Ulong>, keys: seq<string>)
    requires Consistent(counts, keys)
    ensures InTable(counts, keys) && forall i, j | 0 <= i < j < |keys| :: keys[i] != keys[j]
  {
    KeySetMeaning(keys);
    forall j | 0 <= j < |keys|
      ensures keys[j] in counts
    {
      assert keys[j] in KeySet(keys);
    }
  }

  lemma SumOfAppend(run: seq<(string, Ulong)>, last: (string, Ulong))
    ensures SumOf(run + [last]) == SumOf(run) + last.1
  {
    assert (run + [last])[..|run|] == run;
  }

  lemma InTableFront(counts: map<string, Ulong>, front: seq<string>, last: string)
    requires InTable(counts, front + [last])
    ensures InTable(counts, front) && last in counts
  {
    var keys := front + [last];
    assert keys[|front|] == last;
    forall j | 0 <= j < |front|
      ensures front[j] in counts
    {
      assert keys[j] == front[j];
    }
  }

  lemma EntriesAppend(counts: map<string, Ulong>, front: seq<string>, last: string, shorten: string -> string)
    requires InTable(counts, front + [last]) && InTable(counts, front) && last in counts
    ensures Entries(counts, front + [last], shorten) == Entries(counts, front, shorten) + [EntryOf(counts, last, shorten)]
  {
    var all, some := Entries(counts, front + [last], shorten), Entries(counts, front, shorten);
    forall j | 0 <= j < |all|
      ensures all[j] == (some + [EntryOf(counts, last, shorten)])[j]
    {
      assert (front + [last])[j] == if j < |front| then front[j] else last;
    }
  }

  lemma {:induction false} EntriesAddUp(counts: map<string, Ulong>, keys: seq<string>, shorten: string -> string)
    requires InTable(counts, keys) && KeySet(keys) <= counts.Keys
    ensures SumOf(Entries(counts, keys, shorten)) == Total(counts, keys)
  {
    if keys != [] {
      var front, last := keys[..|keys| - 1], keys[|keys| - 1];
      assert keys == front + [last];
      InTableFront(counts, front, last);
      EntriesAppend(counts, front, last, shorten);
      EntriesAddUp(counts, front, shorten);
      SumOfAppend(Entries(counts, front, shorten), EntryOf(counts, last, shorten));
    }
  }

  /** The reporting part: a lookup of one image, or of every key in turn. */
  method Summarise(hashtable: HashTable, image: Option<string>) returns (r: Report)
    requires hashtable.Valid() && InTable(hashtable.counts, hashtable.keys)
    ensures image.Some? ==>
            r == OneImage(if image.value in hashtable.counts then hashtable.counts[image.value] % UINT else 0)
    ensures image == None ==> r == AllImages(Entries(hashtable.counts, hashtable.keys, ShortName), hashtable.elements)
  {
    if image.Some? {
      var np, _ := hashtable.Lookup(image.value);
      return OneImage(if np != null then np.count % UINT else 0);
    }
    var entries := ListAll(hashtable);
    return AllImages(entries, hashtable.elements);
  }

  method ListAll(hashtable: HashTable) returns (entries: seq<(string, Ulong)>)
    requires hashtable.Valid() && InTable(hashtable.counts, hashtable.keys)
    ensures entries == Entries(hashtable.counts, hashtable.keys, ShortName)
  {
    entries := [];
    ghost var counts, keys := hashtable.counts, hashtable.keys;
    for j := 0 to hashtable.uniq
      invariant |entries| == j && forall i | 0 <= i < j :: entries[i] == EntryOf(counts, keys[i], ShortName)
    {
      var np, _ := hashtable.Lookup(hashtable.keys[j]);
      entries := entries + [(ShortName(hashtable.keys[j]), np.count)];
      assert entries[j] == EntryOf(counts, keys[j], ShortName);
    }
  }

  ghost predicate Tokenises(json: string) {
    Count(json) >= 0 && Fill(json, Count(json)).1 >= 0
  }

  /** The buffer that json_tokenise returns. */
  ghost function Buffer(json: string): seq<Token> {
    if Count(json) >= 0 then Fill(json, Count(json)).0.tokens else []
  }

  /** What the search for "Image" puts on a JSON answer: the short names of the images. */
  function ImagesOf(json: string, ts: seq<Token>): seq<Option<string>>
    requires SpansIn(json, ts)
  {
    Values(SeenOf(json, ts, "Image"), ShortName)
  }

  /**
   docker_running_containers on a JSON answer. It fails where the source aborts, or would read what
   it has not been given: the answer does not tokenise, or its last token is "Image" and not the
   only one.
   */
  method RunningContainers(json: string, image: Option<string>) returns (r: Report)
    ensures Tokenises(json) ==> SpansIn(json, Buffer(json))
    ensures r.Failed? <==> !Tokenises(json) || Overreads(SeenOf(json, Buffer(json), "Image"))
    ensures r.AllImages? <==> !r.Failed? && image == None
    ensures !r.Failed? ==>
            Counted(ImageCount(json, Buffer(json)), |Followed(json, Buffer(json), "Image")|, image, r)
    ensures r.OneImage? && '/' in image.value ==> r.running == 0
  {
    var t := Tokenise(json);
    if t.Tokenised? {
      SpansOfFill(json, Count(json));
      r := CountImages(json, t.buffer[..], image);
    } else {
      if Count(json) >= 0 {
        JsmnVerdict.FillSucceedsIff(json, Count(json));
      }
      r := Failed;
    }
  }

  /** One entry for each image that there is by `count`: none twice, none left out, each with that number. */
  ghost predicate EntryPerImage(count: string -> nat, entries: seq<(string, Ulong)>) {
    && (forall i, j | 0 <= i < j < |entries| :: entries[i].0 != entries[j].0)
    && (forall image | count(image) > 0 :: Lists(entries, image))
    && (forall j | 0 <= j < |entries| :: IsCount(count, entries[j]))
  }

  ghost predicate Lists(entries: seq<(string, Ulong)>, image: string) {
    exists j | 0 <= j < |entries| :: entries[j].0 == image
  }

  ghost predicate IsCount(count: string -> nat, entry: (string, Ulong)) {
    count(entry.0) > 0 && entry.1 == count(entry.0) % ULONG
  }

  /** A report gives the numbers of containers by `count`, with `all` as their total. */
  ghost predicate Counted(count: string -> nat, all: nat, image: Option<string>, r: Report) {
    match r
    case Failed => false
    case OneImage(running) => image.Some? && running == count(image.value) % ULONG % UINT
    case AllImages(entries, total) =>
      image == None && EntryPerImage(count, entries) && (all < UINT ==> SumOf(entries) == total == all)
  }

  lemma SameCounted(count: string -> nat, other: string -> nat, all: nat, image: Option<string>, r: Report)
    requires Counted(count, all, image, r) && forall name :: count(name) == other(name)
    ensures Counted(other, all, image, r)
  {
    if r.AllImages? {
      forall j | 0 <= j < |r.entries|
        ensures IsCount(other, r.entries[j])
      {
        assert IsCount(count, r.entries[j]);
      }
    }
  }

  /** The puts of each name. */
  ghost function HitCount(vs: seq<Option<string>>): string -> nat {
    name => |Hits(vs, name, |vs|)|
  }

  /** The tokens "Image" with a successor whose text has each short name. */
  ghost function ImageCount(json: string, ts: seq<Token>): string -> nat {
    name => |FollowedBy(json, ts, "Image", ShortName, name)|
  }

  lemma HitCountIsImageCount(json: string, ts: seq<Token>, name: string)
    requires SpansIn(json, ts)
    ensures HitCount(ImagesOf(json, ts))(name) == ImageCount(json, ts)(name)
  {
    HitsAreFollowed(json, ts, "Image", ShortName, name);
  }

  /** The report of the puts is that of the tokens. */
  lemma CountedByTokens(json: string, ts: seq<Token>, image: Option<string>, r: Report)
    requires SpansIn(json, ts)
    requires var vs := ImagesOf(json, ts); Counted(HitCount(vs), |Named(vs, |vs|)|, image, r)
    ensures Counted(ImageCount(json, ts), |Followed(json, ts, "Image")|, image, r)
  {
    NamedAreFollowed(json, ts, "Image", ShortName);
    forall name: string
      ensures HitCount(ImagesOf(json, ts))(name) == ImageCount(json, ts)(name)
    {
      HitCountIsImageCount(json, ts, name);
    }
    SameCounted(HitCount(ImagesOf(json, ts)), ImageCount(json, ts), |Followed(json, ts, "Image")|, image, r);
  }

  method CountImages(json: string, ts: seq<Token>, image: Option<string>) returns (r: Report)
    requires SpansIn(json, ts)
    ensures r.Failed? <==> Overreads(SeenOf(json, ts, "Image"))
    ensures r.AllImages? <==> !r.Failed? && image == None
    ensures !r.Failed? ==> Counted(ImageCount(json, ts), |Followed(json, ts, "Image")|, image, r)
    ensures r.OneImage? && '/' in image.value ==> r.running == 0
  {
    var found := Search(json, ts, "Image", ShortName, 1);
    if found == None {
      return Failed;
    }
    ghost var vs := ImagesOf(json, ts);
    ImagesAreShort(json, ts);
    if image == None {
      r := ReportAll(found.value, vs);
    } else {
      r := ReportOne(found.value, image.value, vs);
    }
    CountedByTokens(json, ts, image, r);
  }

  /** Every put is of a name without a slash. */
  ghost predicate Short(vs: seq<Option<string>>) {
    forall i | 0 <= i < |vs| && vs[i].Some? :: '/' !in vs[i].value
  }

  lemma PutIsConverted(seen: seq<Seen>, convert: string -> string, vs: seq<Option<string>>, i: nat)
    requires vs == Values(seen, convert) && i < |vs| && vs[i].Some?
    ensures vs[i].value == convert(seen[i + 1].text)
  {}

  lemma PutIsShort(seen: seq<Seen>, vs: seq<Option<string>>, i: nat)
    requires vs == Values(seen, ShortName) && i < |vs| && vs[i].Some?
    ensures '/' !in vs[i].value
  {
    PutIsConverted(seen, ShortName, vs, i);
    ShortNameExact(seen[i + 1].text);
  }

  lemma PutsAreShort(seen: seq<Seen>, vs: seq<Option<string>>)
    requires vs == Values(seen, ShortName)
    ensures Short(vs)
  {
    forall i | 0 <= i < |vs| && vs[i].Some?
      ensures '/' !in vs[i].value
    {
      PutIsShort(seen, vs, i);
    }
  }

  lemma ImagesAreShort(json: string, ts: seq<Token>)
    requires SpansIn(json, ts)
    ensures Short(ImagesOf(json, ts))
  {
    PutsAreShort(SeenOf(json, ts, "Image"), ImagesOf(json, ts));
  }

  /** A name without a slash is its own short name. */
  lemma ShortIsShort(name: string)
    requires '/' !in name
    ensures ShortName(name) == name
  {
    ShortNameExact(name);
  }

  lemma SlashNotHit(vs: seq<Option<string>>, image: string)
    requires Short(vs) && '/' in image
    ensures Hits(vs, image, |vs|) == {}
  {
    forall i | 0 <= i < |vs|
      ensures vs[i] != Some(image)
    {
      assert vs[i].Some? ==> '/' !in vs[i].value;
    }
  }

  lemma AskedAs(vs: seq<Option<string>>, image: string, short: string)
    requires Short(vs) && ('/' !in image ==> short == image)
    ensures '/' in image ==> Hits(vs, image, |vs|) == {}
    ensures Hits(vs, image, |vs|) == Hits(vs, short, |vs|) <==> '/' !in image || Hits(vs, short, |vs|) == {}
  {
    if '/' in image {
      SlashNotHit(vs, image);
    }
  }

  /**
   The images are put by their short names, and the one asked for is looked up as it is given: it is
   found under its own name exactly if that has no slash, or there is none of it to be found.
   */
  lemma AskedByName(json: string, ts: seq<Token>, image: string)
    requires SpansIn(json, ts)
    ensures '/' in image ==> FollowedBy(json, ts, "Image", ShortName, image) == {}
    ensures FollowedBy(json, ts, "Image", ShortName, image) == FollowedBy(json, ts, "Image", ShortName, ShortName(image))
       <==> '/' !in image || FollowedBy(json, ts, "Image", ShortName, ShortName(image)) == {}
  {
    ImagesAreShort(json, ts);
    HitsAreFollowed(json, ts, "Image", ShortName, image);
    HitsAreFollowed(json, ts, "Image", ShortName, ShortName(image));
    if '/' !in image {
      ShortIsShort(image);
    }
    AskedAs(ImagesOf(json, ts), image, ShortName(image));
  }

  method ReportAll(hashtable: HashTable, ghost vs: seq<Option<string>>) returns (r: Report)
    requires hashtable.Valid() && hashtable.View() == PutAll(AllPuts(vs, 1)) && Short(vs)
    ensures r.AllImages? && Counted(HitCount(vs), |Named(vs, |vs|)|, None, r)
  {
    ShortIsKept(vs);
    EntriesArePerImage(vs, PutAll(AllPuts(vs, 1)), ShortName);
    if |Named(vs, |vs|)| < UINT {
      AllAddUp(vs, PutAll(AllPuts(vs, 1)), ShortName);
    }
    r := Summarise(hashtable, None);
  }

  method ReportOne(hashtable: HashTable, image: string, ghost vs: seq<Option<string>>) returns (r: Report)
    requires hashtable.Valid() && hashtable.View() == PutAll(AllPuts(vs, 1)) && Short(vs)
    ensures r == OneImage(HitCount(vs)(image) % ULONG % UINT) && ('/' in image ==> r.running == 0)
  {
    LookedUp(vs, image);
    PutAllConsistent(AllPuts(vs, 1));
    KeysInTable(PutAll(AllPuts(vs, 1)).counts, PutAll(AllPuts(vs, 1)).keys);
    r := Summarise(hashtable, Some(image));
  }

  /** What a lookup of one image finds. */
  lemma LookedUp(vs: seq<Option<string>>, image: string)
    requires Short(vs)
    ensures var counts := PutAll(AllPuts(vs, 1)).counts;
            && HitCount(vs)(image) % ULONG == (if image in counts then counts[image] else 0)
            && ('/' in image ==> image !in counts)
  {
    PutsLeave(vs, 1, image);
    if '/' in image {
      SlashNotHit(vs, image);
    }
  }

  /** What is put is not shortened any further. */
  ghost predicate Kept(vs: seq<Option<string>>, shorten: string -> string) {
    forall i | 0 <= i < |vs| && vs[i].Some? :: shorten(vs[i].value) == vs[i].value
  }

  lemma ShortIsKept(vs: seq<Option<string>>)
    requires Short(vs)
    ensures Kept(vs, ShortName)
  {
    forall i | 0 <= i < |vs| && vs[i].Some?
      ensures ShortName(vs[i].value) == vs[i].value
    {
      ShortIsShort(vs[i].value);
    }
  }

  /** An entry of the table, as it is listed. */
  lemma EntryCounts(vs: seq<Option<string>>, t: Counter, shorten: string -> string, j: nat)
    requires Kept(vs, shorten) && t == PutAll(AllPuts(vs, 1)) && InTable(t.counts, t.keys) && j < |t.keys|
    ensures var e := EntryOf(t.counts, t.keys[j], shorten); e.0 == t.keys[j] && IsCount(HitCount(vs), e)
  {
    PutsLeave(vs, 1, t.keys[j]);
    var i :| i in Hits(vs, t.keys[j], |vs|);
    assert shorten(vs[i].value) == vs[i].value;
  }

  lemma ImageListed(vs: seq<Option<string>>, t: Counter, shorten: string -> string, i: nat)
    requires Kept(vs, shorten) && t == PutAll(AllPuts(vs, 1)) && InTable(t.counts, t.keys) && Consistent(t.counts, t.keys)
    requires i < |vs| && vs[i].Some?
    ensures Lists(Entries(t.counts, t.keys, shorten), vs[i].value)
  {
    PutsLeave(vs, 1, vs[i].value);
    assert i in Hits(vs, vs[i].value, |vs|);
    KeySetMeaning(t.keys);
    var j :| 0 <= j < |t.keys| && t.keys[j] == vs[i].value;
    EntryCounts(vs, t, shorten, j);
  }

  lemma EntriesArePerImage(vs: seq<Option<string>>, t: Counter, shorten: string -> string)
    requires Kept(vs, shorten) && t == PutAll(AllPuts(vs, 1))
    ensures InTable(t.counts, t.keys) && EntryPerImage(HitCount(vs), Entries(t.counts, t.keys, shorten))
  {
    PutAllConsistent(AllPuts(vs, 1));
    KeysInTable(t.counts, t.keys);
    var entries := Entries(t.counts, t.keys, shorten);
    forall j | 0 <= j < |entries|
      ensures entries[j].0 == t.keys[j] && IsCount(HitCount(vs), entries[j])
    {
      EntryCounts(vs, t, shorten, j);
    }
    forall image | HitCount(vs)(image) > 0
      ensures Lists(entries, image)
    {
      var i :| i in Hits(vs, image, |vs|);
      ImageListed(vs, t, shorten, i);
    }
  }

  lemma AllAddUp(vs: seq<Option<string>>, t: Counter, shorten: string -> string)
    requires t == PutAll(AllPuts(vs, 1)) && InTable(t.counts, t.keys) && |Named(vs, |vs|)| < UINT
    ensures SumOf(Entries(t.counts, t.keys, shorten)) == t.elements == |Named(vs, |vs|)|
  {
    PutsAreNamed(vs, |vs|);
    CountsAddUp(AllPuts(vs, 1));
    EntriesAddUp(t.counts, t.keys, shorten);
  }
}
