/** Runs of increments, each for one key: what the table of counters and the list of users add up. */
module Runs {
  import opened Words

  /** The sum of the increments that a run gives to a key. */
  function SumFor<K(==)>(run: seq<(K, Ulong)>, key: K): nat {
    if run == [] then 0
    else SumFor(run[..|run| - 1], key) + (if run[|run| - 1].0 == key then run[|run| - 1].1 else 0)
  }

  /** The sum of all the increments. */
  function SumOf<K>(run: seq<(K, Ulong)>): nat {
    if run == [] then 0 else SumOf(run[..|run| - 1]) + run[|run| - 1].1
  }

  ghost predicate IsIn<K>(run: seq<(K, Ulong)>, key: K) {
    exists i | 0 <= i < |run| :: run[i].0 == key
  }

  /** The index of the first increment of a key, or the length of the run if there is none. */
  function First<K(==)>(run: seq<(K, Ulong)>, key: K): (r: nat)
    ensures r <= |run|
    ensures r < |run| ==> run[r].0 == key
    ensures forall i | 0 <= i < r :: run[i].0 != key
  {
    if run == [] then 0
    else
      var r := First(run[..|run| - 1], key);
      if r < |run| - 1 || run[|run| - 1].0 == key then r else |run|
  }

  lemma IsInLast<K>(run: seq<(K, Ulong)>, key: K)
    requires run != []
    ensures IsIn(run, key) <==> IsIn(run[..|run| - 1], key) || run[|run| - 1].0 == key
  {
    var front := run[..|run| - 1];
    if IsIn(front, key) {
      var i :| 0 <= i < |front| && front[i].0 == key;
      assert run[i].0 == key;
    }
    if IsIn(run, key) {
      var i :| 0 <= i < |run| && run[i].0 == key;
      assert i < |front| ==> front[i].0 == key;
    }
  }

  lemma {:induction false} NotInSumsToZero<K>(run: seq<(K, Ulong)>, key: K)
    ensures !IsIn(run, key) ==> SumFor(run, key) == 0
  {
    if run != [] {
      IsInLast(run, key);
      NotInSumsToZero(run[..|run| - 1], key);
    }
  }
}
