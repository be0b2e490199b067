/**
 lib/collection.c: a hash table of counters. Chains of heap nodes hang from an array of buckets,
 and an array of keys remembers the order of insertion. A key is a C string: a text without NUL.
 */
module Collection {
  import opened Runs
  import opened Words

  const HASHSIZE := 101

  // ---------------------------------------------------------------------------
  // The hash function
  // ---------------------------------------------------------------------------

  /** A `char` that is added to an `unsigned`: bytes from 128 on count as negative (signed `char`). */
  function CharValue(c: char): int {
    if c as int < 128 then c as int else c as int - 256
  }

  /** The polynomial that the hash function evaluates, without any wrap-around. */
  function Polynomial(s: string): int {
    if s == "" then 0 else 31 * Polynomial(s[..|s| - 1]) + CharValue(s[|s| - 1])
  }

  function PowerOf31(n: nat): int {
    if n == 0 then 1 else 31 * PowerOf31(n - 1)
  }

  /** The sum of the characters, each times 31 to the number of characters behind it. */
  function PowerSum(s: string): int {
    if s == "" then 0
    else (s[0] as int - (if s[0] as int >= 128 then 256 else 0)) * PowerOf31(|s| - 1) + PowerSum(s[1..])
  }

  lemma {:induction false} PowerSumAppend(s: string, c: char)
    ensures PowerSum(s + [c]) == 31 * PowerSum(s) + CharValue(c)
  {
    if s == "" {
      assert PowerSum([c]) == CharValue(c) * PowerOf31(0) + PowerSum([c][1..]);
    } else {
      var v := CharValue(s[0]);
      PowerSumAppend(s[1..], c);
      assert (s + [c])[1..] == s[1..] + [c];
      assert v * PowerOf31(|s|) == 31 * (v * PowerOf31(|s| - 1));
    }
  }

  /** The hash of a key is that sum, modulo 2^32 and then 101. */
  lemma {:induction false} HashIsPowerSum(s: string)
    ensures Polynomial(s) == PowerSum(s) && Hash(s) == PowerSum(s) % 0x1_0000_0000 % 101
  {
    if s != "" {
      HashIsPowerSum(s[..|s| - 1]);
      PowerSumAppend(s[..|s| - 1], s[|s| - 1]);
      assert s[..|s| - 1] + [s[|s| - 1]] == s;
    }
  }

  function Hash(s: string): (h: nat)
    ensures h < HASHSIZE
  {
    Polynomial(s) % UINT % HASHSIZE
  }

  lemma WrapOnce(a: int, b: int)
    ensures (b + 31 * (a % UINT)) % UINT == (31 * a + b) % UINT
  {
    var q, r := a / UINT, a % UINT;
    assert 31 * a + b == (b + 31 * r) + (31 * q) * UINT;
    ModDropsMultiple(b + 31 * r, 31 * q);
  }

  lemma ModDropsMultiple(x: int, k: int)
    ensures (x + k * UINT) % UINT == x % UINT
  {
    var q := x / UINT;
    assert x + k * UINT == (q + k) * UINT + x % UINT;
  }

  /** hash: the loop wraps around at every step, and yields the polynomial modulo 2^32. */
  method HashOf(s: string) returns (h: nat)
    ensures h == Hash(s)
  {
    var hashval := 0;
    for i := 0 to |s|
      invariant hashval == Polynomial(s[..i]) % UINT
    {
      WrapOnce(Polynomial(s[..i]), CharValue(s[i]));
      assert s[..i + 1][..i] == s[..i];
      hashval := (CharValue(s[i]) + 31 * hashval) % UINT;
    }
    assert s[..|s|] == s;
    return hashval % HASHSIZE;
  }

  // ---------------------------------------------------------------------------
  // The table as a value
  // ---------------------------------------------------------------------------

  /** What a table holds: a count per key, the keys in order of insertion, and the number of puts. */
  datatype Counter = Counter(counts: map<string, Ulong>, keys: seq<string>, elements: Uint)

  const EMPTY := Counter(map[], [], 0)

  function AfterPut(t: Counter, key: string, increment: Ulong): Counter {
    Counter(t.counts[key := if key in t.counts then AddUlong(t.counts[key], increment) else increment],
            if key in t.counts then t.keys else t.keys + [key],
            AddUint(t.elements, 1))
  }

  /** A run of puts, in order. */
  function PutAll(puts: seq<(string, Ulong)>): Counter {
    if puts == [] then EMPTY
    else
      var (key, increment) := puts[|puts| - 1];
      AfterPut(PutAll(puts[..|puts| - 1]), key, increment)
  }

  function KeySet(keys: seq<string>): set<string> {
    if keys == [] then {} else KeySet(keys[..|keys| - 1]) + {keys[|keys| - 1]}
  }

  /** No key comes twice. */
  predicate Distinct(keys: seq<string>) {
    keys != [] ==> Distinct(keys[..|keys| - 1]) && keys[|keys| - 1] !in KeySet(keys[..|keys| - 1])
  }

  lemma KeySetAppend(keys: seq<string>, key: string)
    ensures KeySet(keys + [key]) == KeySet(keys) + {key}
    ensures Distinct(keys + [key]) <==> Distinct(keys) && key !in KeySet(keys)
  {
    assert (keys + [key])[..|keys|] == keys;
  }

  /** What the two functions mean for the positions of the keys. */
  lemma {:induction false} KeySetMeaning(keys: seq<string>)
    ensures forall k :: k in KeySet(keys) <==> k in keys
    ensures Distinct(keys) <==> forall i, j | 0 <= i < j < |keys| :: keys[i] != keys[j]
  {
    if keys != [] {
      var front := keys[..|keys| - 1];
      KeySetMeaning(front);
      assert keys == front + [keys[|keys| - 1]];
      assert forall i | 0 <= i < |front| :: front[i] == keys[i];
      if forall i, j | 0 <= i < j < |keys| :: keys[i] != keys[j] {
        assert forall i, j | 0 <= i < j < |front| :: front[i] != front[j];
      }
    }
  }

  /** The keys array and the counters speak of the same keys, none of them twice. */
  ghost predicate Consistent(counts: map<string, Ulong>, keys: seq<string>) {
    Distinct(keys) && KeySet(keys) == counts.Keys
  }

  lemma PutKeepsConsistent(t: Counter, key: string, increment: Ulong)
    requires Consistent(t.counts, t.keys)
    ensures Consistent(AfterPut(t, key, increment).counts, AfterPut(t, key, increment).keys)
  {
    if key in t.counts {
      assert AfterPut(t, key, increment).counts.Keys == t.counts.Keys;
    } else {
      KeySetAppend(t.keys, key);
    }
  }

  lemma {:induction false} PutAllConsistent(puts: seq<(string, Ulong)>)
    ensures Consistent(PutAll(puts).counts, PutAll(puts).keys)
  {
    if puts != [] {
      PutAllConsistent(puts[..|puts| - 1]);
      PutKeepsConsistent(PutAll(puts[..|puts| - 1]), puts[|puts| - 1].0, puts[|puts| - 1].1);
    }
  }

  /**
   After any run of puts, a key is absent if it was never put, and otherwise has the sum of its
   increments, as an unsigned long; `elements` is the number of puts, as an unsigned int.
   */
  lemma {:induction false} PutAllCounts(puts: seq<(string, Ulong)>, key: string)
    ensures key in PutAll(puts).counts <==> IsIn(puts, key)
    ensures key in PutAll(puts).counts ==> PutAll(puts).counts[key] == SumFor(puts, key) % ULONG
    ensures PutAll(puts).elements == |puts| % UINT
  {
    if puts != [] {
      var front, last := puts[..|puts| - 1], puts[|puts| - 1];
      IsInLast(puts, key);
      PutAllCounts(front, key);
      NotInSumsToZero(front, key);
      var sum := SumFor(front, key);
      if last.0 == key && IsIn(front, key) {
        ModularAdd(sum, last.1);
      }
    }
  }

  lemma ModularAdd(a: nat, b: Ulong)
    ensures AddUlong(a % ULONG, b) == (a + b) % ULONG
  {
    assert a == a / ULONG * ULONG + a % ULONG;
  }

  ghost predicate ByFirstPut(puts: seq<(string, Ulong)>, keys: seq<string>) {
    && (forall i | 0 <= i < |keys| :: First(puts, keys[i]) < |puts|)
    && (forall i, j | 0 <= i < j < |keys| :: First(puts, keys[i]) < First(puts, keys[j]))
  }

  lemma ByFirstPutGrows(puts: seq<(string, Ulong)>, keys: seq<string>)
    requires puts != [] && ByFirstPut(puts[..|puts| - 1], keys)
    ensures ByFirstPut(puts, keys)
    ensures First(puts[..|puts| - 1], puts[|puts| - 1].0) == |puts| - 1 ==> ByFirstPut(puts, keys + [puts[|puts| - 1].0])
  {
    var front, key := puts[..|puts| - 1], puts[|puts| - 1].0;
    assert forall i | 0 <= i < |keys| :: First(puts, keys[i]) == First(front, keys[i]);
  }

  /** The keys are the keys of the run, each once, ordered by their first put. */
  lemma {:induction false} PutAllKeys(puts: seq<(string, Ulong)>)
    ensures Distinct(PutAll(puts).keys) && ByFirstPut(puts, PutAll(puts).keys)
    ensures forall k :: k in KeySet(PutAll(puts).keys) <==> IsIn(puts, k)
  {
    PutAllConsistent(puts);
    forall k
      ensures k in PutAll(puts).counts <==> IsIn(puts, k)
    {
      PutAllCounts(puts, k);
    }
    if puts != [] {
      var front, key := puts[..|puts| - 1], puts[|puts| - 1].0;
      PutAllKeys(front);
      ByFirstPutGrows(puts, PutAll(front).keys);
      PutAllCounts(front, key);
      assert First(front, key) < |front| ==> IsIn(front, key);
    }
  }

  /** The sum of the counts of some keys. */
  function Total(counts: map<string, Ulong>, keys: seq<string>): nat
    requires KeySet(keys) <= counts.Keys
  {
    if keys == [] then 0 else Total(counts, keys[..|keys| - 1]) + counts[keys[|keys| - 1]]
  }

  lemma {:induction false} TotalElsewhere(counts: map<string, Ulong>, keys: seq<string>, key: string, n: Ulong)
    requires KeySet(keys) <= counts.Keys && key !in KeySet(keys)
    ensures Total(counts[key := n], keys) == Total(counts, keys)
  {
    if keys != [] {
      TotalElsewhere(counts, keys[..|keys| - 1], key, n);
    }
  }

  /** Changing one count changes the total by as much. */
  lemma {:induction false} TotalChanged(counts: map<string, Ulong>, keys: seq<string>, key: string, n: Ulong)
    requires Distinct(keys) && key in KeySet(keys) && KeySet(keys) <= counts.Keys
    ensures Total(counts[key := n], keys) == Total(counts, keys) - counts[key] + n
  {
    var front := keys[..|keys| - 1];
    if keys[|keys| - 1] == key {
      TotalElsewhere(counts, front, key, n);
    } else {
      TotalChanged(counts, front, key, n);
    }
  }

  lemma {:induction false} SumAtMost(puts: seq<(string, Ulong)>, key: string)
    requires forall i | 0 <= i < |puts| :: puts[i].1 == 1
    ensures SumFor(puts, key) <= |puts|
  {
    if puts != [] {
      SumAtMost(puts[..|puts| - 1], key);
    }
  }

  lemma OneMore(t: Counter, key: string)
    requires Consistent(t.counts, t.keys) && (key in t.counts ==> t.counts[key] + 1 < ULONG)
    ensures var u := AfterPut(t, key, 1);
            Consistent(u.counts, u.keys) && Total(u.counts, u.keys) == Total(t.counts, t.keys) + 1
  {
    PutKeepsConsistent(t, key, 1);
    if key in t.counts {
      TotalChanged(t.counts, t.keys, key, t.counts[key] + 1);
    } else {
      TotalElsewhere(t.counts, t.keys, key, 1);
      assert (t.keys + [key])[..|t.keys|] == t.keys;
    }
  }

  /** With increments of one, and no wrap-around, the counts of all the keys add up to the number of puts. */
  lemma {:induction false} CountsAddUp(puts: seq<(string, Ulong)>)
    requires |puts| < UINT && forall i | 0 <= i < |puts| :: puts[i].1 == 1
    ensures KeySet(PutAll(puts).keys) == PutAll(puts).counts.Keys
    ensures Total(PutAll(puts).counts, PutAll(puts).keys) == PutAll(puts).elements == |puts|
  {
    PutAllConsistent(puts);
    if puts != [] {
      var front, key := puts[..|puts| - 1], puts[|puts| - 1].0;
      CountsAddUp(front);
      PutAllConsistent(front);
      PutAllCounts(front, key);
      SumAtMost(front, key);
      OneMore(PutAll(front), key);
    }
  }

  // ---------------------------------------------------------------------------
  // The table in memory
  // ---------------------------------------------------------------------------

  class Node {
    const key: string
    var count: Ulong
    var next: Node?

    constructor (key: string, count: Ulong, next: Node?)
      ensures this.key == key && this.count == count && this.next == next
    {
      this.key, this.count, this.next := key, count, next;
    }
  }

  class HashTable {
    var capacity: nat
    var elements: Uint
    var uniq: nat
    var table: array<Node?>
    var keys: seq<string>
    /** The nodes of each chain, in order. */
    ghost var chains: seq<seq<Node>>
    ghost var nodes: set<Node>
    ghost var counts: map<string, Ulong>

    ghost function View(): Counter
      reads this
    {
      Counter(counts, keys, elements)
    }

    /** The chain from `head` runs through exactly the nodes of `c` and ends: it is acyclic. */
    ghost predicate Linked(head: Node?, c: seq<Node>)
      reads c`next
    {
      && head == (if c == [] then null else c[0])
      && forall i | 0 <= i < |c| :: c[i].next == if i + 1 < |c| then c[i + 1] else null
    }

    /** Every node of the chain belongs to bucket `b`, and no key comes twice. */
    ghost predicate Bucket(b: nat, c: seq<Node>)
      reads this`nodes
    {
      && (forall i | 0 <= i < |c| :: c[i] in nodes && Hash(c[i].key) == b)
      && (forall i, j | 0 <= i < j < |c| :: c[i].key != c[j].key)
    }

    ghost predicate Chains()
      reads this`chains, this`nodes, this`table, table, nodes`next
    {
      && table.Length == |chains| == HASHSIZE
      && (forall b | 0 <= b < HASHSIZE :: Bucket(b, chains[b]))
      && (forall b | 0 <= b < HASHSIZE :: Linked(table[b], chains[b]))
    }

    /** Each node of the chain holds the count of its key. */
    ghost predicate Counted(c: seq<Node>)
      reads this`counts, c`count
    {
      forall i | 0 <= i < |c| :: c[i].key in counts && counts[c[i].key] == c[i].count
    }

    ghost predicate Has(c: seq<Node>, key: string) {
      exists i | 0 <= i < |c| :: c[i].key == key
    }

    ghost predicate Contents()
      requires Chains()
      reads this`chains, this`nodes, this`table, this`counts, table, nodes
    {
      && (forall b | 0 <= b < HASHSIZE :: Counted(chains[b]))
      && (forall k | k in counts :: Has(chains[Hash(k)], k))
    }

    ghost predicate Valid()
      reads this, table, nodes
    {
      capacity == HASHSIZE && uniq == |keys| && Chains() && Contents()
    }

    /** counter_create */
    constructor ()
      ensures Valid() && View() == EMPTY
      ensures fresh(table) && nodes == {}
    {
      capacity, elements, uniq := HASHSIZE, 0, 0;
      table := new Node?[HASHSIZE](_ => null);
      keys, chains, nodes, counts := [], seq(HASHSIZE, _ => []), {}, map[];
    }

    /** The loop of counter_lookup along one chain. */
    method Walk(h: nat, key: string) returns (np: Node?, ghost place: nat)
      requires Chains() && h < HASHSIZE
      ensures np != null <==> Has(chains[h], key)
      ensures np != null ==> np.key == key && place < |chains[h]| && np == chains[h][place]
    {
      np := table[h];
      place := 0;
      ghost var c := chains[h];
      while np != null && np.key != key
        invariant 0 <= place <= |c| && Linked(table[h], c)
        invariant np == if place < |c| then c[place] else null
        invariant forall j | 0 <= j < place :: c[j].key != key
        decreases |c| - place
      {
        np := np.next;
        place := place + 1;
      }
    }

    /** counter_lookup: the node of the key, or null; `place` is its position in the chain. */
    method Lookup(key: string) returns (np: Node?, ghost place: nat)
      requires Valid()
      ensures key in counts ==>
              && place < |chains[Hash(key)]| && np == chains[Hash(key)][place]
              && np in nodes && np.key == key && np.count == counts[key]
      ensures key !in counts ==> np == null
    {
      var h := HashOf(key);
      np, place := Walk(h, key);
      assert Counted(chains[h]) && Bucket(h, chains[h]);
    }

    /** counter_put */
    method Put(key: string, increment: Ulong) returns (np: Node)
      requires Valid()
      modifies this, table, nodes
      ensures Valid() && table == old(table) && fresh(nodes - old(nodes))
      ensures View() == AfterPut(old(View()), key, increment)
      ensures np.key == key && np.count == counts[key]
    {
      np := Count(key, increment);
      elements := AddUint(elements, 1);
    }

    /** counter_put up to the last increment. */
    method Count(key: string, increment: Ulong) returns (np: Node)
      requires Valid()
      modifies this, table, nodes
      ensures Valid() && table == old(table) && fresh(nodes - old(nodes))
      ensures View() == AfterPut(old(View()), key, increment).(elements := old(elements))
      ensures np.key == key && key in counts && np.count == counts[key]
    {
      var found, place := Lookup(key);
      if found == null {
        np := Insert(key, increment);
      } else {
        np := found;
        Raise(np, Hash(key), place, increment);
      }
    }

    method Raise(np: Node, ghost h: nat, ghost place: nat, increment: Ulong)
      requires Valid() && h == Hash(np.key) && place < |chains[h]| && np == chains[h][place] && np.key in counts
      requires np.count == counts[np.key]
      modifies this`counts, np`count
      ensures Valid()
      ensures np.count == counts[np.key]
      ensures counts == old(counts)[np.key := AddUlong(old(counts)[np.key], increment)]
    {
      np.count := AddUlong(np.count, increment);
      counts := counts[np.key := np.count];
      forall b | 0 <= b < HASHSIZE
        ensures Counted(chains[b])
      {
        assert Bucket(b, chains[b]);
        assert old(Counted(chains[b]));
      }
    }

    /** A new node at the head of its chain, and its key at the end of the keys. */
    method Insert(key: string, count: Ulong) returns (np: Node)
      requires Valid() && key !in counts
      modifies this, table
      ensures Valid() && table == old(table) && fresh(nodes - old(nodes))
      ensures View() == Counter(old(counts)[key := count], old(keys) + [key], old(elements))
      ensures np.key == key && np.count == count
    {
      var h := HashOf(key);
      np := new Node(key, count, table[h]);
      LinkIn(np, h);
      AppendKey(key);
    }

    method AppendKey(key: string)
      requires Valid()
      modifies this`keys, this`uniq
      ensures Valid() && keys == old(keys) + [key]
    {
      keys := keys + [key];
      uniq := uniq + 1;
    }

    method LinkIn(np: Node, h: nat)
      requires Chains() && Contents() && np !in nodes && h == Hash(np.key) && np.next == table[h]
      requires np.key !in counts
      modifies table, this`chains, this`nodes, this`counts
      ensures Chains() && Contents() && nodes == old(nodes) + {np}
      ensures counts == old(counts)[np.key := np.count]
    {
      ghost var before := chains;
      assert Counted(before[h]);
      PushChain(np, h);
      CountNew(np, h, before);
    }

    method PushChain(np: Node, h: nat)
      requires Chains() && np !in nodes && h == Hash(np.key) && np.next == table[h]
      requires !Has(chains[h], np.key)
      modifies table, this`chains, this`nodes
      ensures Chains()
      ensures chains == old(chains)[h := [np] + old(chains)[h]] && nodes == old(nodes) + {np}
    {
      table[h] := np;
      chains := chains[h := [np] + chains[h]];
      nodes := nodes + {np};
      forall b | 0 <= b < HASHSIZE
        ensures Bucket(b, chains[b]) && Linked(table[b], chains[b])
      {
        assert old(Bucket(b, chains[b]) && Linked(table[b], chains[b]));
      }
    }

    ghost method CountNew(np: Node, h: nat, before: seq<seq<Node>>)
      requires Chains() && h == Hash(np.key) && np.key !in counts
      requires |before| == HASHSIZE && chains == before[h := [np] + before[h]]
      requires forall b | 0 <= b < HASHSIZE :: Counted(before[b])
      requires forall k | k in counts :: Has(before[Hash(k)], k)
      modifies this`counts
      ensures Contents()
      ensures counts == old(counts)[np.key := np.count]
    {
      counts := counts[np.key := np.count];
      forall b | 0 <= b < HASHSIZE
        ensures Counted(chains[b])
      {
        assert old(Counted(before[b]));
      }
      forall k | k in counts
        ensures Has(chains[Hash(k)], k)
      {
        if k == np.key {
          assert chains[h][0].key == k;
        } else {
          var c := before[Hash(k)];
          assert Has(c, k);
          var i :| 0 <= i < |c| && c[i].key == k;
          assert chains[Hash(k)][if Hash(k) == h then i + 1 else i].key == k;
        }
      }
    }
  }
}
