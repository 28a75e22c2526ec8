/** Tables keyed by an append id, and the retention rule that keeps the newest rows. */
module RetainedTable {

  /** The keys newer than `id`. */
  function Newer(keys: set<nat>, id: nat): set<nat> {
    set k | k in keys && k > id
  }

  /** Whether `id` is among the `count` newest keys. */
  predicate AmongNewest(keys: set<nat>, id: nat, count: nat) {
    |Newer(keys, id)| < count
  }

  function Newest<V>(table: map<nat, V>, count: nat): map<nat, V> {
    map id | id in table && AmongNewest(table.Keys, id, count) :: table[id]
  }

  lemma SubsetCount(a: set<nat>, b: set<nat>)
    requires a <= b
    ensures |a| <= |b|
  {
    assert b == a + (b - a);
  }

  lemma Least(s: set<nat>) returns (least: nat)
    requires s != {}
    ensures least in s && forall other :: other in s ==> least <= other
  {
    var some: nat :| some in s;
    var rest := s - {some};
    least := some;
    if rest != {} {
      var other := Least(rest);
      assert forall k | k in s :: k == some || k in rest;
      least := if other < some then other else some;
    } else {
      assert s == {some};
    }
  }

  /** Any set of keys that are all among the newest `count` has at most `count` members. */
  lemma NewestBounded(keys: set<nat>, chosen: set<nat>, count: nat)
    requires chosen <= keys
    requires forall id | id in chosen :: AmongNewest(keys, id, count)
    ensures |chosen| <= count
  {
    if chosen != {} {
      var least := Least(chosen);
      assert chosen == {least} + (chosen - {least});
      SubsetCount(chosen - {least}, Newer(keys, least));
    }
  }

  /** Retention keeps everything newer than anything it keeps. */
  lemma NewestUpward(keys: set<nat>, id: nat, newer: nat, count: nat)
    requires AmongNewest(keys, id, count) && id <= newer
    ensures AmongNewest(keys, newer, count)
  {
    SubsetCount(Newer(keys, newer), Newer(keys, id));
  }

  /** A table within the bound loses nothing. */
  lemma SmallTableKept<V>(table: map<nat, V>, count: nat)
    requires |table| <= count
    ensures Newest(table, count) == table
  {
    forall id | id in table
      ensures AmongNewest(table.Keys, id, count)
    {
      assert Newer(table.Keys, id) <= table.Keys - {id};
      SubsetCount(Newer(table.Keys, id), table.Keys - {id});
    }
  }

  lemma NewestCount<V>(table: map<nat, V>, count: nat)
    ensures |Newest(table, count)| <= count
    ensures Newest(table, count).Keys <= table.Keys
  {
    NewestBounded(table.Keys, Newest(table, count).Keys, count);
  }
}
