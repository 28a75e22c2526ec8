/** An answered row that outlives retention: a run that gets there, and what its answer then does. */
module JournalCrowded {
  import opened Prelude
  import opened RetainedTable
  import opened PersonEvents
  import opened DeliveryJournal
  import opened JournalInvariant
  import opened JournalTrace
  import opened JournalAnswers

  const CAMERA: Camera := 3
  const NEURAL: Connection := Connection(Neural, 5, true, {CAMERA}, 1, 0)
  const SHAKEN: map<ConnectionId, int> := map[7 := 160]

  // ---------------------------------------------------------------- serving one event after another

  function AnsweredRow(s: Sequence): Delivery {
    Delivery(7, s + 1, CAMERA, 1, Some(9), true)
  }

  /** The deliveries of the first `n` events, each handed out once and answered. */
  function ServedRows(n: nat): map<Sequence, Delivery> {
    map s: Sequence | 0 <= s < n :: AnsweredRow(s)
  }

  function Served(n: nat): Journal {
    Journal(map[7 := NEURAL.(cursor := n)], ServedRows(n), n, map[], 0, SHAKEN, map[])
  }

  /** The first `n` served, and the next one in a given state of its life. */
  function Serving(n: nat, d: Delivery, leases: map<LeaseKey, int>): Journal {
    Journal(map[7 := NEURAL.(cursor := n + 1)], ServedRows(n)[n := d], n + 1, map[], 0, SHAKEN, leases)
  }

  function Queued(n: nat): Delivery {
    Delivery(7, n + 1, CAMERA, 0, None, false)
  }

  function Sent(n: nat): Delivery {
    Delivery(7, n + 1, CAMERA, 1, None, true)
  }

  /** The producer after `n` frames that each showed somebody. */
  function Seen(n: nat): Source {
    Source(map[CAMERA := Analytics(true, if n == 0 then None else Some(n))],
           map id: EventId | 1 <= id <= n :: PersonEvent(CAMERA, id), n + 1)
  }

  function Below(n: nat): (s: set<nat>)
    ensures |s| == n && forall k: nat :: k in s <==> k < n
  {
    if n == 0 then {} else Below(n - 1) + {n - 1}
  }

  lemma FewEvents(n: nat)
    ensures |Seen(n).events| == n
  {
    hide Below;
    assert Below(n + 1) == Seen(n).events.Keys + {0};
  }

  lemma NextIsNew(n: nat)
    ensures !Present(Seen(n).events, PersonEvent(CAMERA, n + 1))
    ensures Seen(n).events[n + 1 := PersonEvent(CAMERA, n + 1)] == Seen(n + 1).events
  {
  }

  lemma NextRecorded(n: nat)
    requires n < MAX_EVENT_ROWS
    ensures Recorded(Seen(n), CAMERA, n + 1, true) == Seen(n + 1)
  {
    hide Present, Newest;
    NextIsNew(n);
    FewEvents(n + 1);
    SmallTableKept(Seen(n + 1).events, MAX_EVENT_ROWS);
  }

  lemma {:induction false} Spread(ids: seq<nat>)
    requires ids != [] && forall i, l | 0 <= i < l < |ids| :: ids[i] < ids[l]
    ensures ids[|ids| - 1] >= ids[0] + |ids| - 1
  {
    if |ids| > 1 {
      Spread(ids[..|ids| - 1]);
    }
  }

  lemma NextBatch(n: nat)
    ensures BatchFor(Served(n), 7, Seen(n + 1)) == [n + 1]
  {
    var ids := BatchFor(Served(n), 7, Seen(n + 1));
    assert n + 1 in ids;
    Spread(ids);
  }

  lemma NextScanned(n: nat)
    ensures ScanOne(Served(n), 7, n + 1, CAMERA, {CAMERA}).journal == Serving(n, Queued(n), map[])
  {
    hide FindRow;
    assert Find(Served(n).deliveries, 7, n + 1, n).None?;
  }

  lemma NextCaptured(n: nat)
    ensures Capture(Served(n), [7], Seen(n + 1), {CAMERA}).journal == Serving(n, Queued(n), map[])
  {
    hide BatchFor, ScanOne, Pending;
    var j, source := Served(n), Seen(n + 1);
    NextBatch(n);
    NextScanned(n);
    NothingPending(n);
    var one := ScanOne(j, 7, n + 1, CAMERA, {CAMERA});
    assert [n + 1][1..] == [] && [7][1..] == [];
    assert 7 in one.journal.connections;
    assert ScanBatch(one.journal, 7, [], source.events, {CAMERA}) == Effect(one.journal, []);
  }

  lemma NothingPending(n: nat)
    ensures Pending(Served(n).deliveries, 7) == {}
  {
  }

  /** Rows nobody may be handed are passed over. */
  lemma {:induction false} NothingDeliverable(
      deliveries: map<Sequence, Delivery>, c: ConnectionId, from: Sequence, to: Sequence, past: Sequence, k: nat)
    requires from <= to <= past && k > 0
    requires forall s | from <= s < to :: !PendingFor(deliveries, c, s)
    ensures Deliverable(deliveries, c, from, past, k) == Deliverable(deliveries, c, to, past, k)
    decreases past - from
  {
    if from < to {
      NothingDeliverable(deliveries, c, from + 1, to, past, k);
    }
  }

  lemma NextPulled(n: nat)
    ensures var r := Pull(Serving(n, Queued(n), map[]), 7, 5, 1, {CAMERA}, 101);
            r.Ok? && r.value.journal == Serving(n, Sent(n), map[(7, n) := 103])
  {
    var j := Serving(n, Queued(n), map[]);
    NothingDeliverable(j.deliveries, 7, 0, n, n + 1, SCAN);
    assert Deliverable(j.deliveries, 7, n + 1, n + 1, SCAN - 1) == [];
    assert Deliverable(j.deliveries, 7, 0, n + 1, SCAN) == [n];
    assert Backoff(1) == 2 by {
      assert Pow2(1) == 2 * Pow2(0);
    }
    var one := HandOut(j, 7, n, 101);
    assert one.journal.deliveries == ServedRows(n)[n := Sent(n)];
    assert [n][1..] == [];
    assert PullRows(one.journal, 7, [], 0, {CAMERA}, 101) == Effect(one.journal, []);
  }

  lemma NextAnswered(n: nat)
    requires n < MAX_RETAINED
    ensures var r := Respond(Serving(n, Sent(n), map[(7, n) := 103]), 7, 5, n + 1, true, 9, {CAMERA}, 102);
            r.Ok? && r.value.journal == Served(n + 1)
  {
    hide FindRow, Below, Retained;
    var j := Serving(n, Sent(n), map[(7, n) := 103]);
    FindUnique(j.deliveries, n + 1, n);
    var answered := j.deliveries[n := Sent(n).(response := Some(9))];
    assert answered == ServedRows(n + 1);
    AllRetained(n + 1);
  }

  lemma AllRetained(n: nat)
    requires n <= MAX_RETAINED
    ensures Retained(ServedRows(n)) == ServedRows(n)
  {
    hide Below;
    var rows := ServedRows(n);
    forall s | s in rows
      ensures AmongNewest(rows.Keys, s, MAX_RETAINED)
    {
      SubsetCount(Newer(rows.Keys, s), Below(n) - {s});
    }
  }

  // ---------------------------------------------------------------- the run

  ghost predicate At(actions: seq<Action>, j: Journal, source: Source) {
    Run(actions).journal == j && Run(actions).source == source
  }

  lemma Then(actions: seq<Action>, a: Action)
    ensures Run(actions + [a]) == Step(Run(actions), a)
  {
    assert (actions + [a])[..|actions|] == actions;
  }

  lemma Begins() returns (actions: seq<Action>)
    ensures At(actions, Served(0), Seen(0))
  {
    hide Run;
    var none: seq<Action> := [];
    var a, b, c := Configuring(CAMERA, Analytics(true, None)), Creating(7, Neural, 5, true, {CAMERA}),
                   Shaking(7, 5, true, 100);
    NothingYet();
    Then(none, a);
    Then(none + [a], b);
    Then(none + [a] + [b], c);
    actions := none + [a] + [b] + [c];
    assert Run(actions).journal.deliveries == ServedRows(0);
    assert Run(actions).source.events == Seen(0).events;
  }

  lemma NothingYet()
    ensures Run([]) == INITIAL
  {
  }

  /** One more event is recorded and queued. */
  lemma QueuesNext(actions: seq<Action>, n: nat) returns (more: seq<Action>)
    requires n < MAX_EVENT_ROWS && At(actions, Served(n), Seen(n))
    ensures At(more, Serving(n, Queued(n), map[]), Seen(n + 1))
  {
    hide Run, Capture, Recorded, Served, Serving, Seen;
    var a, b := Recording(CAMERA, n + 1, true), Capturing([7], {CAMERA});
    Then(actions, a);
    Then(actions + [a], b);
    NextRecorded(n);
    NextCaptured(n);
    more := actions + [a] + [b];
  }

  lemma ServesNext(actions: seq<Action>, n: nat) returns (more: seq<Action>)
    requires n < MAX_RETAINED && At(actions, Served(n), Seen(n))
    ensures At(more, Served(n + 1), Seen(n + 1))
  {
    hide Run, Pull, Respond, Served, Serving, Seen;
    var queued := QueuesNext(actions, n);
    var a, b := Pulling(7, 5, 1, {CAMERA}, 101), Responding(7, 5, n + 1, true, 9, {CAMERA}, 102);
    Then(queued, a);
    Then(queued + [a], b);
    NextPulled(n);
    NextAnswered(n);
    more := queued + [a] + [b];
  }

  lemma {:induction false} Serves(n: nat) returns (actions: seq<Action>)
    requires n <= MAX_RETAINED
    ensures At(actions, Served(n), Seen(n))
  {
    hide At, Served, Seen;
    if n == 0 {
      actions := Begins();
    } else {
      var earlier := Serves(n - 1);
      actions := ServesNext(earlier, n - 1);
    }
  }

  /** Ten thousand answered deliveries and, queued after them, one more. */
  function Crowded(): Journal {
    Serving(MAX_RETAINED, Queued(MAX_RETAINED), map[])
  }

  lemma CrowdedIsReached() returns (actions: seq<Action>)
    ensures Run(actions).journal == Crowded()
  {
    hide Run, Served, Serving, Seen;
    var served := Serves(MAX_RETAINED);
    actions := QueuesNext(served, MAX_RETAINED);
  }

  // ---------------------------------------------------------------- what the oldest answer does now

  /** The oldest answered row is stored with 10,000 newer ones: no call has run retention since they came. */
  lemma CrowdedOldest()
    ensures var rows := Crowded().deliveries;
            && 0 in rows && rows[0] == Delivery(7, 1, CAMERA, 1, Some(9), true)
            && 0 in Answered(rows) && !AmongNewest(rows.Keys, 0, MAX_RETAINED)
  {
    hide Below;
    var newer := Newer(Crowded().deliveries.Keys, 0);
    assert newer + {0} == Below(MAX_RETAINED + 1);
  }

  /**
   A run ends with an answered delivery whose response is accepted once more and so loses its own
   row: submitted again it is refused. A different response is a conflict the first time.
   */
  lemma DuplicateDeletesItself() returns (actions: seq<Action>)
    ensures var j := Run(actions).journal;
            var second := Respond(j, 7, 5, 1, true, 9, {CAMERA}, 104);
            && WasAccepted(Run(actions).log, 0)
            && second.Ok? && second.value.log == [Accepted(7, 0, 9, true)] && 0 !in second.value.journal.deliveries
            && Respond(second.value.journal, 7, 5, 1, true, 9, {CAMERA}, 104) == Err(Mismatch)
            && Respond(j, 7, 5, 1, true, 8, {CAMERA}, 104) == Err(Conflict)
  {
    hide Run, Respond, AmongNewest, Crowded;
    actions := CrowdedIsReached();
    var j := Crowded();
    CrowdedSound(actions);
    CrowdedOldest();
    CrowdedOpen();
    ResubmitExact(j, 7, 5, 0, 9, {CAMERA}, 104);
    ResubmitExact(j, 7, 5, 0, 8, {CAMERA}, 104);
    var left := Respond(j, 7, 5, 1, true, 9, {CAMERA}, 104).value.journal;
    CrowdedForgets();
    UnknownMismatch(left, 7, 5, 1, 9, {CAMERA}, 104);
  }

  /** Being the end of a run, it satisfies the invariant, and its first row was answered in the run. */
  lemma CrowdedSound(actions: seq<Action>)
    requires Run(actions).journal == Crowded()
    ensures Inv(Crowded()) && WasAccepted(Run(actions).log, 0)
  {
    hide Run, AmongNewest, Crowded, Inv, WasAccepted;
    CrowdedOldest();
    AlwaysSound(actions);
    assert RowMirrors(Run(actions), 0);
  }

  lemma CrowdedOpen()
    ensures var j := Crowded();
            && Machine(j, 7, 5, Neural, 104) == None && InScope(j, 7, CAMERA, {CAMERA})
            && Machine(j.(deliveries := Retained(j.deliveries)), 7, 5, Neural, 104) == None
  {
  }

  lemma CrowdedForgets()
    requires !AmongNewest(Crowded().deliveries.Keys, 0, MAX_RETAINED)
    ensures Find(Retained(Crowded().deliveries), 7, 1, Crowded().nextDelivery).None?
  {
    hide AmongNewest, FindRow;
    var left := Retained(Crowded().deliveries);
    assert forall s | s in left :: s in Crowded().deliveries && left[s].event == s + 1;
    assert 0 !in left;
  }
}
