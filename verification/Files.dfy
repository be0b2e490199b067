/**
 lib/files.c: counting the files of a directory tree by class. A tree is what opendir, readdir and
 lstat report; `now` is the clock as read on entry to a directory.
 */
module Files {

  // ---------------------------------------------------------------------------
  // Trees and filters
  // ---------------------------------------------------------------------------

  datatype Kind = Regular(mtime: int, size: int) | Symlink | Special | Unknown

  /** `Lost` is an entry whose lstat fails. */
  datatype Entry = File(name: string, kind: Kind) | Sub(name: string, dir: Dir) | Lost(name: string)

  datatype Dir = Unreadable | Dir(now: int, entries: seq<Entry>)

  /** The arguments of files_filecount. `matches` is fnmatch on the pattern, true without a pattern. */
  datatype Query = Query(ignoreSymlinks: bool, ignoreUnknown: bool, includeHidden: bool, recursive: bool,
                         regularOnly: bool, age: int, size: int, matches: string -> bool)

  predicate IsHidden(name: string) {
    name != "" && name[0] == '.'
  }

  /** files_check_age */
  predicate CheckAge(age: int, now: int, mtime: int) {
    if age == 0 then true
    else
      var bound := if age < 0 then now + age else now - age;
      (age < 0 && mtime > bound) || (age > 0 && mtime < bound)
  }

  /** files_check_size */
  predicate CheckSize(size: int, filesize: int) {
    if size == 0 then true
    else
      var bound := if size < 0 then -size else size;
      (size < 0 && filesize < bound) || (size > 0 && filesize > bound)
  }

  /** A positive limit lets older and larger files pass, a negative one younger and smaller ones, and 0 all. */
  lemma FiltersSplit(limit: int, now: int, mtime: int, filesize: int)
    requires limit > 0
    ensures CheckAge(limit, now, mtime) <==> now - mtime > limit
    ensures CheckAge(-limit, now, mtime) <==> now - mtime < limit
    ensures CheckSize(limit, filesize) <==> filesize > limit
    ensures CheckSize(-limit, filesize) <==> filesize < limit
    ensures CheckAge(0, now, mtime) && CheckSize(0, filesize)
  {}

  // ---------------------------------------------------------------------------
  // What a run counts
  // ---------------------------------------------------------------------------

  datatype Class = AsDirectory | AsRegular | AsSymlink | AsSpecial | AsUnknown | AsNothing

  /** What a directory counts as; one that is not descended into is an unknown file. */
  function FolderClass(name: string, q: Query): Class {
    if !q.matches(name) || q.regularOnly then AsNothing
    else if q.recursive then AsDirectory
    else AsUnknown
  }

  /** What any other file counts as. */
  function FileClass(name: string, kind: Kind, now: int, q: Query): Class {
    if !q.matches(name) then AsNothing
    else
      match kind
      case Regular(mtime, size) =>
        if CheckAge(q.age, now, mtime) && CheckSize(q.size, size) then AsRegular else AsNothing
      case Symlink => if q.ignoreSymlinks || q.regularOnly then AsNothing else AsSymlink
      case Special => AsSpecial
      case Unknown => AsUnknown
  }

  predicate InTotal(c: Class, q: Query) {
    match c
    case AsDirectory | AsRegular | AsSymlink => true
    case AsSpecial => !q.regularOnly
    case AsUnknown => !q.ignoreUnknown
    case AsNothing => false
  }

  /** An entry that a run looks at: the class it counts in, and whether its name is a hidden one. */
  datatype Item = Item(sort: Class, hidden: bool)

  predicate Skipped(name: string, q: Query) {
    name == "." || name == ".." || (!q.includeHidden && IsHidden(name))
  }

  function ItemsOf(e: Entry, now: int, q: Query): seq<Item>
    decreases e
  {
    if Skipped(e.name, q) then []
    else
      match e
      case Lost(name) => [Item(AsNothing, IsHidden(name))]
      case File(name, kind) => [Item(FileClass(name, kind, now, q), IsHidden(name))]
      case Sub(name, dir) =>
        [Item(FolderClass(name, q), IsHidden(name))] + (if q.recursive && dir.Dir? then Visited(dir.entries, dir.now, q) else [])
  }

  /** The items of a directory, and of the directories below it if the run is recursive. */
  function Visited(entries: seq<Entry>, now: int, q: Query): seq<Item>
    decreases entries
  {
    if entries == [] then []
    else Visited(entries[..|entries| - 1], now, q) + ItemsOf(entries[|entries| - 1], now, q)
  }

  predicate StopsAt(e: Entry, q: Query)
    decreases e
  {
    && !Skipped(e.name, q)
    && (e.Lost? || (e.Sub? && q.recursive && e.dir.Dir? && Stops(e.dir.entries, q)))
  }

  /** The run meets an entry that it cannot stat. */
  predicate Stops(entries: seq<Entry>, q: Query)
    decreases entries
  {
    entries != [] && (Stops(entries[..|entries| - 1], q) || StopsAt(entries[|entries| - 1], q))
  }

  ghost function InClass(items: seq<Item>, c: Class): set<int> {
    set i | 0 <= i < |items| && items[i].sort == c
  }

  /** Only directories and regular files count as hidden ones. */
  ghost function HiddenOnes(items: seq<Item>): set<int> {
    set i | 0 <= i < |items| && items[i].hidden && (items[i].sort == AsDirectory || items[i].sort == AsRegular)
  }

  ghost function Totalled(items: seq<Item>, q: Query): set<int> {
    set i | 0 <= i < |items| && InTotal(items[i].sort, q)
  }

  /** struct files_types */
  datatype Counts = Counts(directory: int, hidden: int, special: int, symlink: int, regular: int, total: int, unknown: int)

  const NONE := Counts(0, 0, 0, 0, 0, 0, 0)

  function Plus(a: Counts, b: Counts): Counts {
    Counts(a.directory + b.directory, a.hidden + b.hidden, a.special + b.special, a.symlink + b.symlink,
           a.regular + b.regular, a.total + b.total, a.unknown + b.unknown)
  }

  /** The number of items of each class. */
  ghost function CountsOf(items: seq<Item>, q: Query): Counts {
    Counts(|InClass(items, AsDirectory)|, |HiddenOnes(items)|, |InClass(items, AsSpecial)|,
           |InClass(items, AsSymlink)|, |InClass(items, AsRegular)|, |Totalled(items, q)|,
           |InClass(items, AsUnknown)|)
  }

  /** What one item counts for. */
  function One(item: Item, q: Query): Counts {
    var c := item.sort;
    Counts(if c == AsDirectory then 1 else 0,
           if item.hidden && (c == AsDirectory || c == AsRegular) then 1 else 0,
           if c == AsSpecial then 1 else 0,
           if c == AsSymlink then 1 else 0,
           if c == AsRegular then 1 else 0,
           if InTotal(c, q) then 1 else 0,
           if c == AsUnknown then 1 else 0)
  }

  lemma InClassAppend(items: seq<Item>, item: Item, c: Class)
    ensures |InClass(items + [item], c)| == |InClass(items, c)| + (if item.sort == c then 1 else 0)
  {
    var before, after := InClass(items, c), InClass(items + [item], c);
    if item.sort == c {
      assert after == before + {|items|};
    } else {
      assert after == before;
    }
  }

  lemma HiddenAppend(items: seq<Item>, item: Item, q: Query)
    ensures |HiddenOnes(items + [item])| == |HiddenOnes(items)| + One(item, q).hidden
  {
    var before, after := HiddenOnes(items), HiddenOnes(items + [item]);
    if One(item, q).hidden == 1 {
      assert after == before + {|items|};
    } else {
      assert after == before;
    }
  }

  lemma TotalledAppend(items: seq<Item>, item: Item, q: Query)
    ensures |Totalled(items + [item], q)| == |Totalled(items, q)| + One(item, q).total
  {
    var before, after := Totalled(items, q), Totalled(items + [item], q);
    if InTotal(item.sort, q) {
      assert after == before + {|items|};
    } else {
      assert after == before;
    }
  }

  lemma CountsAppend(items: seq<Item>, item: Item, q: Query)
    ensures CountsOf(items + [item], q) == Plus(CountsOf(items, q), One(item, q))
  {
    InClassAppend(items, item, AsDirectory);
    InClassAppend(items, item, AsSpecial);
    InClassAppend(items, item, AsSymlink);
    InClassAppend(items, item, AsRegular);
    InClassAppend(items, item, AsUnknown);
    HiddenAppend(items, item, q);
    TotalledAppend(items, item, q);
  }

  /** The sum of the first `n`. */
  function Sum(counts: seq<Counts>, n: nat): Counts
    requires n <= |counts|
  {
    if n == 0 then NONE else Plus(Sum(counts, n - 1), counts[n - 1])
  }

  function Ones(items: seq<Item>, q: Query): (r: seq<Counts>)
    ensures |r| == |items|
  {
    seq(|items|, i requires 0 <= i < |items| => One(items[i], q))
  }

  /** The items added up. */
  function Tally(items: seq<Item>, q: Query): Counts {
    Sum(Ones(items, q), |items|)
  }

  lemma PlusMoves(a: Counts, b: Counts, c: Counts)
    ensures Plus(Plus(a, b), c) == Plus(a, Plus(b, c)) == Plus(Plus(a, c), b)
  {}

  lemma {:induction false} SumPrefix(a: seq<Counts>, b: seq<Counts>, n: nat)
    requires n <= |a|
    ensures Sum(a + b, n) == Sum(a, n)
  {
    if n != 0 {
      SumPrefix(a, b, n - 1);
    }
  }

  lemma {:induction false} SumConcat(a: seq<Counts>, b: seq<Counts>, n: nat)
    requires n <= |b|
    ensures Sum(a + b, |a| + n) == Plus(Sum(a, |a|), Sum(b, n))
  {
    if n == 0 {
      SumPrefix(a, b, |a|);
    } else {
      SumConcat(a, b, n - 1);
      PlusMoves(Sum(a, |a|), Sum(b, n - 1), b[n - 1]);
    }
  }

  /** Counting is additive. */
  lemma TallyConcat(a: seq<Item>, b: seq<Item>, q: Query)
    ensures Tally(a + b, q) == Plus(Tally(a, q), Tally(b, q))
  {
    assert Ones(a + b, q) == Ones(a, q) + Ones(b, q);
    SumConcat(Ones(a, q), Ones(b, q), |b|);
  }

  lemma TallyOne(item: Item, q: Query)
    ensures Tally([item], q) == One(item, q)
  {
    assert Sum(Ones([item], q), 0) == NONE;
  }

  lemma TallyAppend(items: seq<Item>, item: Item, q: Query)
    ensures Tally(items + [item], q) == Plus(Tally(items, q), One(item, q))
  {
    TallyConcat(items, [item], q);
    TallyOne(item, q);
  }

  lemma NothingCounted(items: seq<Item>, q: Query)
    requires items == []
    ensures Tally(items, q) == CountsOf(items, q)
  {
    assert forall c :: InClass(items, c) == {};
    assert HiddenOnes(items) == {} && Totalled(items, q) == {};
  }

  lemma MeaningAppend(items: seq<Item>, front: seq<Item>, last: Item, q: Query)
    requires items == front + [last] && Tally(front, q) == CountsOf(front, q)
    ensures Tally(items, q) == CountsOf(items, q)
  {
    CountsAppend(front, last, q);
    TallyAppend(front, last, q);
  }

  lemma SplitLast(items: seq<Item>)
    requires items != []
    ensures items == items[..|items| - 1] + [items[|items| - 1]]
  {}

  /** Adding up gives the number of items of each class. */
  lemma {:induction false} TallyMeaning(items: seq<Item>, q: Query)
    ensures Tally(items, q) == CountsOf(items, q)
    decreases |items|
  {
    if items == [] {
      NothingCounted(items, q);
    } else {
      SplitLast(items);
      TallyMeaning(items[..|items| - 1], q);
      MeaningAppend(items, items[..|items| - 1], items[|items| - 1], q);
    }
  }

  /** The total is the sum of the counted classes, with the two exceptions that the flags make. */
  lemma {:induction false} TotalIdentity(items: seq<Item>, q: Query)
    ensures var n := Tally(items, q);
            n.total == n.directory + n.regular + n.symlink
                       + (if q.regularOnly then 0 else n.special) + (if q.ignoreUnknown then 0 else n.unknown)
  {
    if items != [] {
      var front, last := items[..|items| - 1], items[|items| - 1];
      TotalIdentity(front, q);
      TallyAppend(front, last, q);
      assert items == front + [last];
    }
  }

  // ---------------------------------------------------------------------------
  // The entries behind the counters
  // ---------------------------------------------------------------------------

  /** An entry that a run comes to, and the clock as read on entry to its directory. */
  datatype Found = Found(entry: Entry, now: int)

  function FoundAt(e: Entry, now: int, q: Query): seq<Found>
    decreases e
  {
    if e.name == "." || e.name == ".." || ("." <= e.name && !q.includeHidden) then []
    else [Found(e, now)] + (if e.Sub? && q.recursive && e.dir.Dir? then FoundIn(e.dir.entries, e.dir.now, q) else [])
  }

  /** All of them, in the directory and, if the run is recursive, below it. */
  function FoundIn(entries: seq<Entry>, now: int, q: Query): seq<Found>
    decreases entries
  {
    if entries == [] then []
    else FoundIn(entries[..|entries| - 1], now, q) + FoundAt(entries[|entries| - 1], now, q)
  }

  predicate CountsAsDirectory(f: Found, q: Query) {
    f.entry.Sub? && q.recursive && !q.regularOnly && q.matches(f.entry.name)
  }

  /** A regular file with a name that matches, on the right side of both limits. */
  predicate CountsAsRegular(f: Found, q: Query) {
    && f.entry.File? && f.entry.kind.Regular? && q.matches(f.entry.name)
    && (q.age > 0 ==> f.now - f.entry.kind.mtime > q.age)
    && (q.age < 0 ==> f.now - f.entry.kind.mtime < -q.age)
    && (q.size > 0 ==> f.entry.kind.size > q.size)
    && (q.size < 0 ==> f.entry.kind.size < -q.size)
  }

  predicate CountsAsSymlink(f: Found, q: Query) {
    f.entry.File? && f.entry.kind.Symlink? && q.matches(f.entry.name) && !q.ignoreSymlinks && !q.regularOnly
  }

  predicate CountsAsSpecial(f: Found, q: Query) {
    f.entry.File? && f.entry.kind.Special? && q.matches(f.entry.name)
  }

  /** A directory that is not descended into is one of these. */
  predicate CountsAsUnknown(f: Found, q: Query) {
    && q.matches(f.entry.name)
    && ((f.entry.File? && f.entry.kind.Unknown?) || (f.entry.Sub? && !q.recursive && !q.regularOnly))
  }

  predicate CountsAsHidden(f: Found, q: Query) {
    "." <= f.entry.name && (CountsAsDirectory(f, q) || CountsAsRegular(f, q))
  }

  predicate CountsInTotal(f: Found, q: Query) {
    || CountsAsDirectory(f, q) || CountsAsRegular(f, q) || CountsAsSymlink(f, q)
    || (CountsAsSpecial(f, q) && !q.regularOnly) || (CountsAsUnknown(f, q) && !q.ignoreUnknown)
  }

  /** The entries of each sort, counted. */
  ghost function Census(found: seq<Found>, q: Query): Counts {
    Counts(|set i | 0 <= i < |found| && CountsAsDirectory(found[i], q)|,
           |set i | 0 <= i < |found| && CountsAsHidden(found[i], q)|,
           |set i | 0 <= i < |found| && CountsAsSpecial(found[i], q)|,
           |set i | 0 <= i < |found| && CountsAsSymlink(found[i], q)|,
           |set i | 0 <= i < |found| && CountsAsRegular(found[i], q)|,
           |set i | 0 <= i < |found| && CountsInTotal(found[i], q)|,
           |set i | 0 <= i < |found| && CountsAsUnknown(found[i], q)|)
  }

  /** An item has the class that its entry calls for. */
  predicate Fits(item: Item, f: Found, q: Query) {
    && (item.sort == AsDirectory <==> CountsAsDirectory(f, q))
    && (item.sort == AsRegular <==> CountsAsRegular(f, q))
    && (item.sort == AsSymlink <==> CountsAsSymlink(f, q))
    && (item.sort == AsSpecial <==> CountsAsSpecial(f, q))
    && (item.sort == AsUnknown <==> CountsAsUnknown(f, q))
    && (item.hidden <==> "." <= f.entry.name)
  }

  ghost predicate AllFit(items: seq<Item>, found: seq<Found>, q: Query) {
    |items| == |found| && forall i | 0 <= i < |items| :: Fits(items[i], found[i], q)
  }

  lemma FitConcat(a: seq<Item>, b: seq<Item>, f: seq<Found>, g: seq<Found>, q: Query)
    requires AllFit(a, f, q) && AllFit(b, g, q)
    ensures AllFit(a + b, f + g, q)
  {}

  lemma FileFits(name: string, kind: Kind, now: int, q: Query)
    ensures Fits(Item(FileClass(name, kind, now, q), IsHidden(name)), Found(File(name, kind), now), q)
  {}

  lemma FolderFits(name: string, dir: Dir, now: int, q: Query)
    ensures Fits(Item(FolderClass(name, q), IsHidden(name)), Found(Sub(name, dir), now), q)
  {}

  lemma {:induction false} EntryFits(e: Entry, now: int, q: Query)
    ensures AllFit(ItemsOf(e, now, q), FoundAt(e, now, q), q)
    decreases e
  {
    match e
    case Lost(_) =>
    case File(name, kind) => FileFits(name, kind, now, q);
    case Sub(name, dir) =>
      FolderFits(name, dir, now, q);
      if q.recursive && dir.Dir? {
        EntriesFit(dir.entries, dir.now, q);
        FitConcat([Item(FolderClass(name, q), IsHidden(name))], Visited(dir.entries, dir.now, q),
                  [Found(e, now)], FoundIn(dir.entries, dir.now, q), q);
      }
  }

  lemma {:induction false} EntriesFit(entries: seq<Entry>, now: int, q: Query)
    ensures AllFit(Visited(entries, now, q), FoundIn(entries, now, q), q)
    decreases entries
  {
    if entries != [] {
      var front, last := entries[..|entries| - 1], entries[|entries| - 1];
      EntriesFit(front, now, q);
      EntryFits(last, now, q);
      FitConcat(Visited(front, now, q), ItemsOf(last, now, q), FoundIn(front, now, q), FoundAt(last, now, q), q);
    }
  }

  lemma CensusOfFitting(items: seq<Item>, found: seq<Found>, q: Query)
    requires AllFit(items, found, q)
    ensures CountsOf(items, q) == Census(found, q)
  {
    assert InClass(items, AsDirectory) == set i | 0 <= i < |found| && CountsAsDirectory(found[i], q);
    assert HiddenOnes(items) == set i | 0 <= i < |found| && CountsAsHidden(found[i], q);
    assert InClass(items, AsSpecial) == set i | 0 <= i < |found| && CountsAsSpecial(found[i], q);
    assert InClass(items, AsSymlink) == set i | 0 <= i < |found| && CountsAsSymlink(found[i], q);
    assert InClass(items, AsRegular) == set i | 0 <= i < |found| && CountsAsRegular(found[i], q);
    assert Totalled(items, q) == set i | 0 <= i < |found| && CountsInTotal(found[i], q);
    assert InClass(items, AsUnknown) == set i | 0 <= i < |found| && CountsAsUnknown(found[i], q);
  }

  /** The counters of a run are a census of the entries that it comes to. */
  lemma TallyIsCensus(entries: seq<Entry>, now: int, q: Query)
    ensures Tally(Visited(entries, now, q), q) == Census(FoundIn(entries, now, q), q)
  {
    EntriesFit(entries, now, q);
    TallyMeaning(Visited(entries, now, q), q);
    CensusOfFitting(Visited(entries, now, q), FoundIn(entries, now, q), q);
  }

  ghost predicate HasLost(found: seq<Found>) {
    exists i | 0 <= i < |found| :: found[i].entry.Lost?
  }

  lemma LostConcat(a: seq<Found>, b: seq<Found>)
    ensures HasLost(a + b) <==> HasLost(a) || HasLost(b)
  {
    if HasLost(a) {
      var i :| 0 <= i < |a| && a[i].entry.Lost?;
      assert (a + b)[i].entry.Lost?;
    }
    if HasLost(b) {
      var i :| 0 <= i < |b| && b[i].entry.Lost?;
      assert (a + b)[|a| + i].entry.Lost?;
    }
  }

  lemma {:induction false} StopsAtLost(e: Entry, now: int, q: Query)
    ensures StopsAt(e, q) <==> HasLost(FoundAt(e, now, q))
    decreases e
  {
    var here := [Found(e, now)];
    assert here + [] == here;
    assert HasLost(here) <==> here[0].entry.Lost?;
    if e.Sub? && q.recursive && e.dir.Dir? {
      StopsForLost(e.dir.entries, e.dir.now, q);
      LostConcat(here, FoundIn(e.dir.entries, e.dir.now, q));
    }
  }

  /** A run stops exactly if one of those entries has no status. */
  lemma {:induction false} StopsForLost(entries: seq<Entry>, now: int, q: Query)
    ensures Stops(entries, q) <==> HasLost(FoundIn(entries, now, q))
    decreases entries
  {
    if entries != [] {
      var front, last := entries[..|entries| - 1], entries[|entries| - 1];
      StopsForLost(front, now, q);
      StopsAtLost(last, now, q);
      LostConcat(FoundIn(front, now, q), FoundAt(last, now, q));
    }
  }

  // ---------------------------------------------------------------------------
  // The order of the entries does not matter
  // ---------------------------------------------------------------------------

  /** The same entry, but for the order in the directories below it. */
  ghost predicate SameEntry(a: Entry, b: Entry)
    decreases a
  {
    if a.Sub? then b.Sub? && a.name == b.name && SameDir(a.dir, b.dir) else a == b
  }

  ghost predicate SameDir(a: Dir, b: Dir)
    decreases a
  {
    if a.Dir? then b.Dir? && a.now == b.now && Shuffled(a.entries, b.entries) else a == b
  }

  /** The same entries in some other order, at every level. */
  ghost predicate Shuffled(a: seq<Entry>, b: seq<Entry>)
    decreases a
  {
    |a| == |b| && (a == [] || exists j | 0 <= j < |b| ::
                     SameEntry(a[|a| - 1], b[j]) && Shuffled(a[..|a| - 1], b[..j] + b[j + 1..]))
  }

  lemma {:induction false} SameSelf(e: Entry)
    ensures SameEntry(e, e)
    decreases e
  {
    if e.Sub? && e.dir.Dir? {
      PermutedIsShuffled(e.dir.entries, e.dir.entries);
    }
  }

  lemma TakeOut(b: seq<Entry>, j: nat)
    requires j < |b|
    ensures multiset(b[..j] + b[j + 1..]) == multiset(b) - multiset{b[j]}
  {
    assert b == b[..j] + ([b[j]] + b[j + 1..]);
  }

  lemma FrontPermuted(a: seq<Entry>, b: seq<Entry>) returns (j: nat)
    requires multiset(a) == multiset(b) && a != []
    ensures |a| == |b| && j < |b| && b[j] == a[|a| - 1]
    ensures multiset(a[..|a| - 1]) == multiset(b[..j] + b[j + 1..])
  {
    assert |a| == |multiset(a)| == |multiset(b)| == |b|;
    var front, last := a[..|a| - 1], a[|a| - 1];
    assert a == front + [last];
    assert last in multiset(b);
    j :| 0 <= j < |b| && b[j] == last;
    TakeOut(b, j);
    assert multiset(front) == multiset(a) - multiset{last};
  }

  /** Any permutation of a directory's entries is such an order. */
  lemma {:induction false} PermutedIsShuffled(a: seq<Entry>, b: seq<Entry>)
    requires multiset(a) == multiset(b)
    ensures Shuffled(a, b)
    decreases a
  {
    if a == [] {
      assert |multiset(b)| == |b|;
    } else {
      var j := FrontPermuted(a, b);
      SameSelf(a[|a| - 1]);
      PermutedIsShuffled(a[..|a| - 1], b[..j] + b[j + 1..]);
    }
  }

  lemma {:induction false} VisitedConcat(a: seq<Entry>, b: seq<Entry>, now: int, q: Query)
    ensures Visited(a + b, now, q) == Visited(a, now, q) + Visited(b, now, q)
    ensures Stops(a + b, q) <==> Stops(a, q) || Stops(b, q)
    decreases |b|
  {
    if b == [] {
      assert a + b == a;
    } else {
      var front := b[..|b| - 1];
      VisitedConcat(a, front, now, q);
      assert (a + b)[..|a + b| - 1] == a + front;
    }
  }

  /** The counts of entries that one of them is taken out of. */
  lemma WithoutOne(b: seq<Entry>, j: nat, now: int, q: Query)
    requires j < |b|
    ensures Tally(Visited(b, now, q), q)
         == Plus(Tally(Visited(b[..j] + b[j + 1..], now, q), q), Tally(ItemsOf(b[j], now, q), q))
    ensures Stops(b, q) <==> Stops(b[..j] + b[j + 1..], q) || StopsAt(b[j], q)
  {
    var front, back := b[..j], b[j + 1..];
    assert b == b[..j + 1] + back && b[..j + 1][..j] == front;
    VisitedConcat(b[..j + 1], back, now, q);
    VisitedConcat(front, back, now, q);
    TallyConcat(Visited(b[..j + 1], now, q), Visited(back, now, q), q);
    TallyConcat(Visited(front, now, q), ItemsOf(b[j], now, q), q);
    TallyConcat(Visited(front, now, q), Visited(back, now, q), q);
    PlusMoves(Tally(Visited(front, now, q), q), Tally(ItemsOf(b[j], now, q), q), Tally(Visited(back, now, q), q));
  }

  lemma {:induction false} SameEntryCounts(a: Entry, b: Entry, now: int, q: Query)
    requires SameEntry(a, b)
    ensures Tally(ItemsOf(a, now, q), q) == Tally(ItemsOf(b, now, q), q)
    ensures StopsAt(a, q) <==> StopsAt(b, q)
    decreases a
  {
    if a.Sub? && a.dir.Dir? && q.recursive && !Skipped(a.name, q) {
      OrderIndependent(a.dir.entries, b.dir.entries, a.dir.now, q);
      TallyConcat([Item(FolderClass(a.name, q), IsHidden(a.name))], Visited(a.dir.entries, a.dir.now, q), q);
      TallyConcat([Item(FolderClass(a.name, q), IsHidden(a.name))], Visited(b.dir.entries, b.dir.now, q), q);
    }
  }

  /** However the entries are ordered, at every level: the counts are the same, and so is whether the run stops. */
  lemma {:induction false} OrderIndependent(a: seq<Entry>, b: seq<Entry>, now: int, q: Query)
    requires Shuffled(a, b)
    ensures Tally(Visited(a, now, q), q) == Tally(Visited(b, now, q), q)
    ensures Stops(a, q) <==> Stops(b, q)
    decreases a
  {
    if a != [] {
      var front, last := a[..|a| - 1], a[|a| - 1];
      var j :| 0 <= j < |b| && SameEntry(last, b[j]) && Shuffled(front, b[..j] + b[j + 1..]);
      OrderIndependent(front, b[..j] + b[j + 1..], now, q);
      SameEntryCounts(last, b[j], now, q);
      WithoutOne(b, j, now, q);
      TallyConcat(Visited(front, now, q), ItemsOf(last, now, q), q);
    }
  }

  lemma SubTally(name: string, dir: Dir, now: int, q: Query)
    requires !Skipped(name, q)
    ensures Tally(ItemsOf(Sub(name, dir), now, q), q)
         == Plus(One(Item(FolderClass(name, q), IsHidden(name)), q),
                 if q.recursive && dir.Dir? then Tally(Visited(dir.entries, dir.now, q), q) else NONE)
  {
    var folder := Item(FolderClass(name, q), IsHidden(name));
    TallyOne(folder, q);
    if q.recursive && dir.Dir? {
      TallyConcat([folder], Visited(dir.entries, dir.now, q), q);
    } else {
      assert ItemsOf(Sub(name, dir), now, q) == [folder];
    }
  }

  // ---------------------------------------------------------------------------
  // The counters
  // ---------------------------------------------------------------------------

  /** -1, 0, or the end of the run. */
  datatype Outcome = Failed | Done | Stopped

  class Counters {
    var directory: int
    var hidden: int
    var special: int
    var symlink: int
    var regular: int
    var total: int
    var unknown: int

    function View(): Counts
      reads this
    {
      Counts(directory, hidden, special, symlink, regular, total, unknown)
    }

    /** files_data_init */
    constructor ()
      ensures View() == NONE
    {
      directory, hidden, special, symlink, regular, total, unknown := 0, 0, 0, 0, 0, 0, 0;
    }

    /** The switch on the type of an entry, for a directory that is not descended into. */
    method CountUnknown(name: string, q: Query)
      modifies this
      ensures View() == Plus(old(View()), One(Item(if q.matches(name) then AsUnknown else AsNothing, IsHidden(name)), q))
    {
      if !q.matches(name) {
        return;
      }
      unknown := unknown + 1;
      if q.ignoreUnknown {
        return;
      }
      total := total + 1;
    }

    /** The switch on the type of an entry, for anything but a directory. */
    method CountFile(name: string, kind: Kind, now: int, q: Query)
      modifies this
      ensures View() == Plus(old(View()), One(Item(FileClass(name, kind, now, q), IsHidden(name)), q))
    {
      if !q.matches(name) {
        return;
      }
      match kind {
        case Unknown =>
          unknown := unknown + 1;
          if q.ignoreUnknown {
            return;
          }
        case Special =>
          special := special + 1;
          if q.regularOnly {
            return;
          }
        case Symlink =>
          if q.ignoreSymlinks || q.regularOnly {
            return;
          }
          symlink := symlink + 1;
        case Regular(mtime, size) =>
          if !CheckAge(q.age, now, mtime) || !CheckSize(q.size, size) {
            return;
          }
          regular := regular + 1;
          if IsHidden(name) {
            hidden := hidden + 1;
          }
      }
      total := total + 1;
    }

    /** What a recursive run counts for a directory itself. */
    method CountFolder(name: string, q: Query)
      requires q.recursive
      modifies this
      ensures View() == Plus(old(View()), One(Item(FolderClass(name, q), IsHidden(name)), q))
    {
      if !q.regularOnly && q.matches(name) {
        directory := directory + 1;
        total := total + 1;
        if IsHidden(name) {
          hidden := hidden + 1;
        }
      }
    }

    /** One turn of the loop over the entries. */
    method CountEntry(e: Entry, now: int, q: Query) returns (stopped: bool)
      modifies this
      ensures stopped <==> StopsAt(e, q)
      ensures !stopped ==> View() == Plus(old(View()), Tally(ItemsOf(e, now, q), q))
      decreases e, 1
    {
      if Skipped(e.name, q) {
        return false;
      }
      match e {
        case Lost(_) =>
          return true;
        case File(name, kind) =>
          TallyOne(Item(FileClass(name, kind, now, q), IsHidden(name)), q);
          CountFile(name, kind, now, q);
          return false;
        case Sub(name, dir) =>
          stopped := CountSub(name, dir, now, q);
      }
    }

    /** A directory that is descended into; failing to open it is ignored. */
    method CountTree(name: string, dir: Dir, q: Query) returns (stopped: bool)
      requires q.recursive
      modifies this
      ensures stopped <==> dir.Dir? && Stops(dir.entries, q)
      ensures !stopped ==>
              View() == Plus(Plus(old(View()), One(Item(FolderClass(name, q), IsHidden(name)), q)),
                             if dir.Dir? then Tally(Visited(dir.entries, dir.now, q), q) else NONE)
      decreases dir, 1
    {
      CountFolder(name, q);
      ghost var before := View();
      var r := Filecount(dir, q);
      assert dir == Unreadable ==> View() == Plus(before, NONE);
      return r == Stopped;
    }

    method CountSub(name: string, dir: Dir, now: int, q: Query) returns (stopped: bool)
      requires !Skipped(name, q)
      modifies this
      ensures stopped <==> StopsAt(Sub(name, dir), q)
      ensures !stopped ==> View() == Plus(old(View()), Tally(ItemsOf(Sub(name, dir), now, q), q))
      decreases dir, 2
    {
      SubTally(name, dir, now, q);
      ghost var one := One(Item(FolderClass(name, q), IsHidden(name)), q);
      ghost var below := if q.recursive && dir.Dir? then Tally(Visited(dir.entries, dir.now, q), q) else NONE;
      PlusMoves(View(), one, below);
      if q.recursive {
        stopped := CountTree(name, dir, q);
      } else {
        CountFlat(name, q);
        stopped := false;
      }
    }

    /** A directory in a run that is not recursive. */
    method CountFlat(name: string, q: Query)
      requires !q.recursive
      modifies this
      ensures View() == Plus(old(View()), One(Item(FolderClass(name, q), IsHidden(name)), q))
    {
      if !q.regularOnly {
        CountUnknown(name, q);
      }
    }

    /**
     files_filecount: the counters grow by the number of visited items of each class (`TallyIsCensus`), and the
     run stops for an entry without status (`StopsForLost`).
     */
    method Filecount(dir: Dir, q: Query) returns (r: Outcome)
      modifies this
      ensures r == Failed <==> dir == Unreadable
      ensures r == Failed ==> View() == old(View())
      ensures r == Stopped <==> dir.Dir? && Stops(dir.entries, q)
      ensures r == Done ==> View() == Plus(old(View()), Tally(Visited(dir.entries, dir.now, q), q))
      decreases dir, 0
    {
      if dir == Unreadable {
        return Failed;
      }
      ghost var before := View();
      for i := 0 to |dir.entries|
        invariant !Stops(dir.entries[..i], q)
        invariant View() == Plus(before, TallyTo(dir, i, q))
      {
        NextEntry(dir, i, q);
        PlusMoves(before, TallyTo(dir, i, q), Tally(ItemsOf(dir.entries[i], dir.now, q), q));
        var stopped := CountEntry(dir.entries[i], dir.now, q);
        if stopped {
          StopsLater(dir.entries, i + 1, q);
          return Stopped;
        }
      }
      assert dir.entries[..|dir.entries|] == dir.entries;
      return Done;
    }
  }

  /** The counts of the first `i` entries. */
  ghost function TallyTo(dir: Dir, i: nat, q: Query): Counts
    requires dir.Dir? && i <= |dir.entries|
  {
    Tally(Visited(dir.entries[..i], dir.now, q), q)
  }

  lemma OneMoreEntry(front: seq<Entry>, e: Entry, now: int, q: Query)
    ensures Visited(front + [e], now, q) == Visited(front, now, q) + ItemsOf(e, now, q)
    ensures Stops(front + [e], q) <==> Stops(front, q) || StopsAt(e, q)
  {
    assert (front + [e])[..|front|] == front;
  }

  lemma NextEntry(dir: Dir, i: nat, q: Query)
    requires dir.Dir? && i < |dir.entries|
    ensures TallyTo(dir, i + 1, q) == Plus(TallyTo(dir, i, q), Tally(ItemsOf(dir.entries[i], dir.now, q), q))
    ensures Stops(dir.entries[..i + 1], q) <==> Stops(dir.entries[..i], q) || StopsAt(dir.entries[i], q)
  {
    assert dir.entries[..i + 1] == dir.entries[..i] + [dir.entries[i]];
    OneMoreEntry(dir.entries[..i], dir.entries[i], dir.now, q);
    TallyConcat(Visited(dir.entries[..i], dir.now, q), ItemsOf(dir.entries[i], dir.now, q), q);
  }

  lemma StopsLater(entries: seq<Entry>, n: nat, q: Query)
    requires n <= |entries| && Stops(entries[..n], q)
    ensures Stops(entries, q)
  {
    VisitedConcat(entries[..n], entries[n..], 0, q);
    assert entries[..n] + entries[n..] == entries;
  }
}
