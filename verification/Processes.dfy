/**
 lib/processes.c: the list of users with running processes. The head holds the total; the last node
 points to itself, and so does the head of an empty list.
 */
module Processes {
  import opened Runs
  import opened Words

  /** `uid_t`; the head of a list carries the largest one, (uid_t) -1. */
  type Uid = Uint

  // ---------------------------------------------------------------------------
  // The list as a value
  // ---------------------------------------------------------------------------

  datatype Entry = Entry(uid: Uid, nbr: Long)

  datatype Tally = Tally(entries: seq<Entry>, total: Long)

  /** The index of the entry of a user, or the number of entries if there is none. */
  function Find(entries: seq<Entry>, uid: Uid): (r: nat)
    ensures r <= |entries|
    ensures r < |entries| ==> entries[r].uid == uid
    ensures forall i | 0 <= i < r :: entries[i].uid != uid
  {
    if entries == [] then 0
    else if entries[0].uid == uid then 0
    else Find(entries[1..], uid) + 1
  }

  /** The entries after one procs_list_node_add: a new user comes last. */
  function Updated(entries: seq<Entry>, uid: Uid, inc: Ulong): (r: seq<Entry>)
    ensures |r| == if Find(entries, uid) < |entries| then |entries| else |entries| + 1
  {
    var k := Find(entries, uid);
    if k < |entries| then entries[k := Entry(uid, AddLong(entries[k].nbr, inc))] else entries + [Entry(uid, AddLong(0, inc))]
  }

  function AfterAdd(t: Tally, uid: Uid, inc: Ulong): Tally {
    Tally(Updated(t.entries, uid, inc), AddLong(t.total, inc))
  }

  /** A run of procs_list_node_add, from an empty list. */
  function AddAll(run: seq<(Uid, Ulong)>): Tally {
    if run == [] then Tally([], 0)
    else AfterAdd(AddAll(run[..|run| - 1]), run[|run| - 1].0, run[|run| - 1].1)
  }

  /** The users of the entries come once each, in the order of their first increment. */
  ghost predicate ByFirst(run: seq<(Uid, Ulong)>, entries: seq<Entry>) {
    && (forall i | 0 <= i < |entries| :: First(run, entries[i].uid) < |run|)
    && (forall i, j | 0 <= i < j < |entries| :: First(run, entries[i].uid) < First(run, entries[j].uid))
  }

  /** Every user of the run has an entry. */
  ghost predicate Covers(run: seq<(Uid, Ulong)>, entries: seq<Entry>) {
    forall i | 0 <= i < |run| :: Find(entries, run[i].0) < |entries|
  }

  /** Each entry holds the sum of its user's increments, as far as a `long` can. */
  ghost predicate Sums(run: seq<(Uid, Ulong)>, entries: seq<Entry>) {
    forall i | 0 <= i < |entries| :: Wraps(SumFor(run, entries[i].uid), entries[i].nbr)
  }

  /** The sum of the numbers of some entries. */
  function Total(entries: seq<Entry>): int {
    if entries == [] then 0 else Total(entries[..|entries| - 1]) + entries[|entries| - 1].nbr
  }

  lemma FindFirst(entries: seq<Entry>, uid: Uid, i: nat)
    requires i < |entries| && entries[i].uid == uid
    ensures Find(entries, uid) <= i
  {}

  lemma ByFirstGrows(run: seq<(Uid, Ulong)>, entries: seq<Entry>)
    requires run != [] && ByFirst(run[..|run| - 1], entries)
    ensures ByFirst(run, entries)
    ensures forall i | 0 <= i < |entries| :: First(run, entries[i].uid) < |run| - 1
  {
    assert forall i | 0 <= i < |entries| :: First(run, entries[i].uid) == First(run[..|run| - 1], entries[i].uid);
  }

  lemma ByFirstAppend(run: seq<(Uid, Ulong)>, entries: seq<Entry>, e: Entry)
    requires ByFirst(run, entries) && First(run, e.uid) == |run| - 1
    requires forall i | 0 <= i < |entries| :: First(run, entries[i].uid) < |run| - 1
    ensures ByFirst(run, entries + [e])
  {
    var all := entries + [e];
    assert forall i | 0 <= i < |entries| :: all[i] == entries[i];
    assert forall i | 0 <= i < |all| :: First(run, all[i].uid) < |run|;
  }

  lemma CoveredIfIn(run: seq<(Uid, Ulong)>, entries: seq<Entry>, uid: Uid)
    requires Covers(run, entries)
    ensures First(run, uid) < |run| ==> Find(entries, uid) < |entries|
  {
    if First(run, uid) < |run| {
      assert run[First(run, uid)].0 == uid;
    }
  }

  lemma ByFirstStep(run: seq<(Uid, Ulong)>, before: seq<Entry>, uid: Uid, inc: Ulong)
    requires run != [] && run[|run| - 1].0 == uid
    requires ByFirst(run[..|run| - 1], before) && Covers(run[..|run| - 1], before)
    ensures ByFirst(run, Updated(before, uid, inc))
  {
    var front, after := run[..|run| - 1], Updated(before, uid, inc);
    ByFirstGrows(run, before);
    if Find(before, uid) < |before| {
      assert forall i | 0 <= i < |before| :: after[i].uid == before[i].uid;
    } else {
      CoveredIfIn(front, before, uid);
      ByFirstAppend(run, before, after[|before|]);
    }
  }

  lemma CoversStep(run: seq<(Uid, Ulong)>, before: seq<Entry>, uid: Uid, inc: Ulong)
    requires run != [] && run[|run| - 1].0 == uid && Covers(run[..|run| - 1], before)
    ensures Covers(run, Updated(before, uid, inc))
  {
    var front, after := run[..|run| - 1], Updated(before, uid, inc);
    forall i | 0 <= i < |run|
      ensures Find(after, run[i].0) < |after|
    {
      assert i < |front| ==> front[i] == run[i];
      FindFirst(after, run[i].0, Find(before, run[i].0));
    }
  }

  /** The entries are the users of the run, each once, in the order of their first increment. */
  lemma {:induction false} AddAllUsers(run: seq<(Uid, Ulong)>)
    ensures ByFirst(run, AddAll(run).entries) && Covers(run, AddAll(run).entries)
  {
    if run != [] {
      var front, uid, inc := run[..|run| - 1], run[|run| - 1].0, run[|run| - 1].1;
      AddAllUsers(front);
      ByFirstStep(run, AddAll(front).entries, uid, inc);
      CoversStep(run, AddAll(front).entries, uid, inc);
    }
  }

  lemma SumsStep(run: seq<(Uid, Ulong)>, before: seq<Entry>, uid: Uid, inc: Ulong)
    requires run != [] && run[|run| - 1] == (uid, inc)
    requires Sums(run[..|run| - 1], before) && ByFirst(run[..|run| - 1], before) && Covers(run[..|run| - 1], before)
    ensures Sums(run, Updated(before, uid, inc))
  {
    var front, after, k := run[..|run| - 1], Updated(before, uid, inc), Find(before, uid);
    if k < |before| {
      WrapsAdd(SumFor(front, uid), before[k].nbr, inc);
    } else {
      NotInSumsToZero(front, uid);
      assert !IsIn(front, uid);
      WrapsZero();
      WrapsAdd(0, 0, inc);
    }
    forall i | 0 <= i < |before| && i != k
      ensures Wraps(SumFor(run, after[i].uid), after[i].nbr)
    {
      assert after[i] == before[i];
      assert k < i ==> First(front, before[k].uid) < First(front, before[i].uid);
      assert before[i].uid != uid;
    }
  }

  lemma {:induction false} AddAllSums(run: seq<(Uid, Ulong)>)
    ensures Sums(run, AddAll(run).entries)
  {
    if run != [] {
      var front := run[..|run| - 1];
      AddAllSums(front);
      AddAllUsers(front);
      SumsStep(run, AddAll(front).entries, run[|run| - 1].0, run[|run| - 1].1);
    }
  }

  lemma {:induction false} TotalChanged(entries: seq<Entry>, k: nat, e: Entry)
    requires k < |entries|
    ensures Total(entries[k := e]) == Total(entries) - entries[k].nbr + e.nbr
  {
    var front := entries[..|entries| - 1];
    if k == |entries| - 1 {
      assert entries[k := e][..k] == front;
    } else {
      assert entries[k := e][..|entries| - 1] == front[k := e];
      TotalChanged(front, k, e);
    }
  }

  lemma TotalOfUpdated(before: seq<Entry>, uid: Uid, inc: Ulong) returns (a: Long)
    ensures Total(Updated(before, uid, inc)) == Total(before) - a + AddLong(a, inc)
  {
    var after, k := Updated(before, uid, inc), Find(before, uid);
    if k < |before| {
      a := before[k].nbr;
      TotalChanged(before, k, after[k]);
    } else {
      a := 0;
      assert after[..|before|] == before;
    }
  }

  lemma TotalStep(before: seq<Entry>, total: Long, uid: Uid, inc: Ulong)
    requires Wraps(Total(before), total)
    ensures Wraps(Total(Updated(before, uid, inc)), AddLong(total, inc))
  {
    WrapsAdd(Total(before), total, inc);
    var a := TotalOfUpdated(before, uid, inc);
    var n := Total(before) - a;
    assert Total(before) + inc == n + a + inc;
    WrapsTerm(n, AddLong(total, inc), a, inc);
  }

  /** The head holds the sum of the run, and the sum over the nodes, as far as a `long` can. */
  lemma {:induction false} AddAllTotal(run: seq<(Uid, Ulong)>)
    ensures Wraps(SumOf(run), AddAll(run).total) && Wraps(Total(AddAll(run).entries), AddAll(run).total)
  {
    if run == [] {
      WrapsZero();
    } else {
      var front, uid, inc := run[..|run| - 1], run[|run| - 1].0, run[|run| - 1].1;
      AddAllTotal(front);
      WrapsAdd(SumOf(front), AddAll(front).total, inc);
      TotalStep(AddAll(front).entries, AddAll(front).total, uid, inc);
    }
  }

  // ---------------------------------------------------------------------------
  // The list in memory
  // ---------------------------------------------------------------------------

  class Node {
    const uid: Uid
    var nbr: Long
    var next: Node

    constructor (uid: Uid, nbr: Long)
      ensures this.uid == uid && this.nbr == nbr && this.next == this
    {
      this.uid, this.nbr := uid, nbr;
      this.next := this;
    }
  }

  class ProcsList {
    const head: Node
    /** The head and the users' nodes, in order. */
    ghost var nodes: seq<Node>
    ghost var view: Tally

    /** From the head, the links run through all the nodes, none twice, and end in a node that points to itself. */
    ghost predicate Linked()
      reads this`nodes, nodes
    {
      && nodes != [] && nodes[0] == head
      && (forall i | 0 <= i < |nodes| :: nodes[i].next == nodes[if i + 1 < |nodes| then i + 1 else i])
      && (forall i, j | 0 <= i < j < |nodes| :: nodes[i] != nodes[j])
    }

    ghost predicate Valid()
      reads this, nodes
    {
      && Linked()
      && |nodes| == |view.entries| + 1 && head.nbr == view.total
      && forall i | 0 <= i < |view.entries| :: Entry(nodes[i + 1].uid, nodes[i + 1].nbr) == view.entries[i]
    }

    lemma TailIsLast(at: nat)
      requires Linked() && at < |nodes|
      ensures nodes[at].next == nodes[at] <==> at == |nodes| - 1
    {
      if at + 1 < |nodes| {
        assert nodes[at] != nodes[at + 1];
      }
    }

    /** procs_list_node_init */
    constructor ()
      ensures Valid() && view == AddAll([]) && fresh(nodes)
    {
      var first := new Node(UINT - 1, 0);
      head := first;
      nodes, view := [first], Tally([], 0);
    }

    /** The node at position `at` of the list takes the increment of its user. */
    method Raise(p: Node, uid: Uid, inc: Ulong, ghost at: nat)
      requires Valid() && 1 <= at < |nodes| && p == nodes[at] && Find(view.entries, uid) == at - 1
      modifies p`nbr, head`nbr, this`view
      ensures Valid() && view == AfterAdd(old(view), uid, inc)
    {
      p.nbr := AddLong(p.nbr, inc);
      head.nbr := AddLong(head.nbr, inc);
      view := AfterAdd(view, uid, inc);
    }

    /** A node that points to itself comes behind the last one, `p`. */
    method Link(p: Node, node: Node)
      requires Linked() && p == nodes[|nodes| - 1] && node !in nodes && node.next == node
      modifies p`next, this`nodes
      ensures Linked() && nodes == old(nodes) + [node]
    {
      p.next := node;
      nodes := nodes + [node];
    }

    /** A new node behind the last one, `p`. */
    method Append(p: Node, uid: Uid, inc: Ulong) returns (node: Node)
      requires Valid() && p == nodes[|nodes| - 1] && Find(view.entries, uid) == |view.entries|
      modifies p`next, head`nbr, this`view, this`nodes
      ensures Valid() && view == AfterAdd(old(view), uid, inc)
      ensures nodes == old(nodes) + [node] && fresh(node) && node.uid == uid
    {
      node := new Node(uid, AddLong(0, inc));
      head.nbr := AddLong(head.nbr, inc);
      Link(p, node);
      view := AfterAdd(view, uid, inc);
    }

    /** procs_list_node_add */
    method Add(uid: Uid, inc: Ulong) returns (p: Node)
      requires Valid()
      modifies this, nodes
      ensures Valid() && view == AfterAdd(old(view), uid, inc)
      ensures p.uid == uid && (nodes == old(nodes) || (nodes == old(nodes) + [p] && fresh(p)))
      ensures var k := Find(view.entries, uid); k < |view.entries| && p == nodes[k + 1]
    {
      p := head;
      ghost var at := 0;
      while p != p.next
        invariant Valid() && nodes == old(nodes) && view == old(view)
        invariant 0 <= at < |nodes| && p == nodes[at]
        invariant forall i | 0 <= i < at :: view.entries[i].uid != uid
        decreases |nodes| - at
      {
        p := p.next;
        at := at + 1;
        if p.uid == uid {
          FindAt(view.entries, uid, at - 1);
          Raise(p, uid, inc, at);
          FindAt(view.entries, uid, at - 1);
          return;
        }
      }
      TailIsLast(at);
      FindNone(view.entries, uid);
      p := Append(p, uid, inc);
      FindAt(view.entries, uid, at);
    }

    /** The entries that a loop written with proc_list_node_foreach gets to see. */
    method Listed() returns (seen: seq<Entry>)
      requires Valid()
      ensures seen == if view.entries == [] then [] else view.entries[..|view.entries| - 1]
    {
      var node := head.next;
      seen := [];
      ghost var at := if |nodes| == 1 then 0 else 1;
      assert node == nodes[at];
      while node != node.next
        invariant 0 <= at < |nodes| && node == nodes[at] && (at == 0 ==> |nodes| == 1)
        invariant seen == if at == 0 then [] else view.entries[..at - 1]
        decreases |nodes| - at
      {
        seen := seen + [Entry(node.uid, node.nbr)];
        node := node.next;
        at := at + 1;
      }
      TailIsLast(at);
    }
  }

  lemma FindAt(entries: seq<Entry>, uid: Uid, k: nat)
    requires k < |entries| && entries[k].uid == uid && forall i | 0 <= i < k :: entries[i].uid != uid
    ensures Find(entries, uid) == k
  {}

  lemma FindNone(entries: seq<Entry>, uid: Uid)
    requires forall i | 0 <= i < |entries| :: entries[i].uid != uid
    ensures Find(entries, uid) == |entries|
  {}

  /** What procs_list_getall learns of one process from its status file. */
  datatype Status = Status(uid: Uid, threads: Ulong)

  /** What a process counts for. */
  function Weight(p: Status, threads: bool): Ulong {
    if threads then p.threads else 1
  }

  /** The increments that the processes make: their threads, or one each. */
  function Increments(procs: seq<Status>, threads: bool): (run: seq<(Uid, Ulong)>)
    ensures |run| == |procs|
  {
    if procs == [] then []
    else
      var last := procs[|procs| - 1];
      Increments(procs[..|procs| - 1], threads) + [(last.uid, Weight(last, threads))]
  }

  // ---------------------------------------------------------------------------
  // Short of 2^63
  // ---------------------------------------------------------------------------

  lemma {:induction false} SumForAtMost(run: seq<(Uid, Ulong)>, uid: Uid)
    ensures SumFor(run, uid) <= SumOf(run)
  {
    if run != [] {
      SumForAtMost(run[..|run| - 1], uid);
    }
  }

  lemma EntryExact(run: seq<(Uid, Ulong)>, i: nat)
    requires SumOf(run) < LONG_HALF && i < |AddAll(run).entries|
    ensures var e := AddAll(run).entries[i]; e.nbr == SumFor(run, e.uid) <= SumOf(run)
  {
    var e := AddAll(run).entries[i];
    AddAllSums(run);
    SumForAtMost(run, e.uid);
    WrapsExact(SumFor(run, e.uid), e.nbr);
  }

  lemma {:induction false} NodesAddUp(run: seq<(Uid, Ulong)>)
    requires SumOf(run) < LONG_HALF
    ensures Total(AddAll(run).entries) == SumOf(run)
  {
    if run != [] {
      var front, uid, inc := run[..|run| - 1], run[|run| - 1].0, run[|run| - 1].1;
      NodesAddUp(front);
      OneMoreNode(front, uid, inc);
    }
  }

  lemma OneMoreNode(front: seq<(Uid, Ulong)>, uid: Uid, inc: Ulong)
    requires SumOf(front) + inc < LONG_HALF
    ensures Total(Updated(AddAll(front).entries, uid, inc)) == Total(AddAll(front).entries) + inc
  {
    var before := AddAll(front).entries;
    var k, after := Find(before, uid), Updated(before, uid, inc);
    if k < |before| {
      EntryExact(front, k);
      TotalChanged(before, k, after[k]);
    } else {
      assert after[..|before|] == before;
    }
  }

  /** Short of 2^63 in all: the head holds the sum of the run, which is the sum over the nodes, and each node that of its user. */
  lemma RunCounted(run: seq<(Uid, Ulong)>)
    requires SumOf(run) < LONG_HALF
    ensures var t := AddAll(run);
            && t.total == Total(t.entries) == SumOf(run)
            && (forall i | 0 <= i < |t.entries| :: t.entries[i].nbr == SumFor(run, t.entries[i].uid))
  {
    AddAllTotal(run);
    WrapsExact(SumOf(run), AddAll(run).total);
    NodesAddUp(run);
    forall i | 0 <= i < |AddAll(run).entries|
      ensures var e := AddAll(run).entries[i]; e.nbr == SumFor(run, e.uid)
    {
      EntryExact(run, i);
    }
  }

  /** The threads of all the processes. */
  function Threads(procs: seq<Status>): nat {
    if procs == [] then 0 else Threads(procs[..|procs| - 1]) + procs[|procs| - 1].threads
  }

  /** The threads of one user's processes. */
  function ThreadsOf(procs: seq<Status>, uid: Uid): nat {
    if procs == [] then 0
    else ThreadsOf(procs[..|procs| - 1], uid) + (if procs[|procs| - 1].uid == uid then procs[|procs| - 1].threads else 0)
  }

  /** One user's processes. */
  ghost function ProcessesOf(procs: seq<Status>, uid: Uid): set<int> {
    set i | 0 <= i < |procs| && procs[i].uid == uid
  }

  /** What a user has: processes, or threads. */
  ghost function Owned(procs: seq<Status>, uid: Uid, threads: bool): nat {
    if threads then ThreadsOf(procs, uid) else |ProcessesOf(procs, uid)|
  }

  /** What there is in all. */
  ghost function Everyones(procs: seq<Status>, threads: bool): nat {
    if threads then Threads(procs) else |procs|
  }

  lemma ProcessesOfLast(procs: seq<Status>, uid: Uid)
    requires procs != []
    ensures |ProcessesOf(procs, uid)| == |ProcessesOf(procs[..|procs| - 1], uid)| + (if procs[|procs| - 1].uid == uid then 1 else 0)
  {
    var front := procs[..|procs| - 1];
    if procs[|procs| - 1].uid == uid {
      assert ProcessesOf(procs, uid) == ProcessesOf(front, uid) + {|procs| - 1};
    } else {
      assert ProcessesOf(procs, uid) == ProcessesOf(front, uid);
    }
  }

  lemma {:induction false} WeightsAddUp(procs: seq<Status>, uid: Uid, threads: bool)
    ensures SumFor(Increments(procs, threads), uid) == Owned(procs, uid, threads)
    ensures SumOf(Increments(procs, threads)) == Everyones(procs, threads)
  {
    if procs == [] {
      assert ProcessesOf(procs, uid) == {};
    } else {
      WeightsAddUp(procs[..|procs| - 1], uid, threads);
      ProcessesOfLast(procs, uid);
      assert Increments(procs, threads)[..|procs| - 1] == Increments(procs[..|procs| - 1], threads);
    }
  }

  lemma OwnsOne(procs: seq<Status>, uid: Uid, i: nat)
    requires i < |procs| && procs[i].uid == uid
    ensures Owned(procs, uid, false) > 0
  {
    assert i in ProcessesOf(procs, uid);
  }

  lemma {:induction false} IncrementOf(procs: seq<Status>, threads: bool, i: nat)
    requires i < |procs|
    ensures Increments(procs, threads)[i] == (procs[i].uid, Weight(procs[i], threads))
    decreases |procs|
  {
    if i < |procs| - 1 {
      IncrementOf(procs[..|procs| - 1], threads, i);
    }
  }

  /** The node of a user, by the processes. */
  lemma NodeOwned(procs: seq<Status>, threads: bool, i: nat)
    requires Everyones(procs, threads) < LONG_HALF && i < |AddAll(Increments(procs, threads)).entries|
    ensures var e := AddAll(Increments(procs, threads)).entries[i];
            e.nbr == Owned(procs, e.uid, threads) && (!threads ==> e.nbr > 0)
  {
    var run := Increments(procs, threads);
    var e := AddAll(run).entries[i];
    WeightsAddUp(procs, e.uid, threads);
    EntryExact(run, i);
    AddAllUsers(run);
    if !threads {
      IncrementOf(procs, threads, First(run, e.uid));
      OwnsOne(procs, e.uid, First(run, e.uid));
    }
  }

  /** The list is a count: in the head of everything, which is the sum over the nodes, and in each node of its user. */
  ghost predicate IsCount(t: Tally, procs: seq<Status>, threads: bool) {
    && t.total == Total(t.entries) == Everyones(procs, threads)
    && (forall i | 0 <= i < |t.entries| :: t.entries[i].nbr == Owned(procs, t.entries[i].uid, threads))
    && (forall i | 0 <= i < |procs| :: Find(t.entries, procs[i].uid) < |t.entries|)
  }

  /**
   With or without the threads option, and short of 2^63: the head counts all the processes (or
   threads), which is the sum over the nodes; each node counts those of its user, and every user of a
   process has a node.
   */
  lemma ProcessesCounted(procs: seq<Status>, threads: bool)
    requires Everyones(procs, threads) < LONG_HALF
    ensures IsCount(AddAll(Increments(procs, threads)), procs, threads)
  {
    var run := Increments(procs, threads);
    WeightsAddUp(procs, 0, threads);
    RunCounted(run);
    AddAllUsers(run);
    forall i | 0 <= i < |AddAll(run).entries|
      ensures var e := AddAll(run).entries[i]; e.nbr == Owned(procs, e.uid, threads)
    {
      NodeOwned(procs, threads, i);
    }
    forall i | 0 <= i < |procs|
      ensures Find(AddAll(run).entries, procs[i].uid) < |AddAll(run).entries|
    {
      IncrementOf(procs, threads, i);
    }
  }

  /** The loop of procs_list_getall, over the processes whose status could be read. */
  method GetAll(procs: seq<Status>, threads: bool) returns (list: ProcsList)
    ensures list.Valid() && list.view == AddAll(Increments(procs, threads))
    ensures Everyones(procs, threads) < LONG_HALF ==> IsCount(list.view, procs, threads)
  {
    list := new ProcsList();
    for i := 0 to |procs|
      invariant list.Valid() && fresh(list) && fresh(list.nodes)
      invariant list.view == AddAll(Increments(procs[..i], threads))
    {
      IncrementsAppend(procs, threads, i);
      var _ := list.Add(procs[i].uid, Weight(procs[i], threads));
    }
    assert procs[..|procs|] == procs;
    if Everyones(procs, threads) < LONG_HALF {
      ProcessesCounted(procs, threads);
    }
  }

  lemma IncrementsAppend(procs: seq<Status>, threads: bool, i: nat)
    requires i < |procs|
    ensures AddAll(Increments(procs[..i + 1], threads))
         == AfterAdd(AddAll(Increments(procs[..i], threads)), procs[i].uid, Weight(procs[i], threads))
  {
    assert procs[..i + 1][..i] == procs[..i];
    var run := Increments(procs[..i + 1], threads);
    assert run[..i] == Increments(procs[..i], threads);
  }

  /**
   The macro stops at the node that points to itself: what it lists misses exactly what the last user
   has, which without the threads option is at least one process.
   */
  lemma ListedFallsShort(procs: seq<Status>, threads: bool, t: Tally)
    requires procs != [] && Everyones(procs, threads) < LONG_HALF && t == AddAll(Increments(procs, threads))
    ensures t.entries != []
    ensures var last := t.entries[|t.entries| - 1];
            && Total(t.entries[..|t.entries| - 1]) == t.total - Owned(procs, last.uid, threads)
            && (!threads ==> Owned(procs, last.uid, threads) > 0)
  {
    ProcessesCounted(procs, threads);
    HasEntry(procs, threads, t);
    LastEntry(procs, threads, t);
  }

  lemma HasEntry(procs: seq<Status>, threads: bool, t: Tally)
    requires procs != [] && IsCount(t, procs, threads)
    ensures t.entries != [] && t.total == Total(t.entries)
  {
    assert Find(t.entries, procs[0].uid) < |t.entries|;
  }

  lemma LastEntry(procs: seq<Status>, threads: bool, t: Tally)
    requires Everyones(procs, threads) < LONG_HALF && t == AddAll(Increments(procs, threads)) && t.entries != []
    ensures var last := t.entries[|t.entries| - 1];
            last.nbr == Owned(procs, last.uid, threads) && (!threads ==> last.nbr > 0)
  {
    NodeOwned(procs, threads, |t.entries| - 1);
  }
}
