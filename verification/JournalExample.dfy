/** One concrete run of the journal: a hand-out, its replay, an answer and its resubmission do occur. */
module JournalExample {
  import opened Prelude
  import opened RetainedTable
  import opened PersonEvents
  import opened DeliveryJournal
  import opened JournalTrace

  const CAMERA: Camera := 3
  const NEURAL: Connection := Connection(Neural, 5, true, {CAMERA}, 1, 0)
  const SEEN: PersonEvent := PersonEvent(CAMERA, 11)
  const SOURCE: Source := Source(map[CAMERA := Analytics(true, Some(11))], map[1 := SEEN], 2)

  /** The journal with one delivery of event 1 to connection 7, in a given state of its life. */
  function With(d: Delivery, handshakes: map<ConnectionId, int>, leases: map<LeaseKey, int>): Journal {
    Journal(map[7 := NEURAL.(cursor := 1)], map[0 := d], 1, map[], 0, handshakes, leases)
  }

  const QUEUED: Delivery := Delivery(7, 1, CAMERA, 0, None, false)
  const SENT: Delivery := Delivery(7, 1, CAMERA, 1, None, true)
  const SENT_AGAIN: Delivery := Delivery(7, 1, CAMERA, 2, None, true)
  const ANSWERED: Delivery := Delivery(7, 1, CAMERA, 2, Some(9), true)

  const NO_EVENTS: Source := Source(map[], map[], 1)

  const CREATED: World := World(Journal(map[7 := NEURAL], map[], 0, map[], 0, map[], map[]), NO_EVENTS, {7}, [Created(7)])

  lemma CreatedFirst()
    ensures Step(INITIAL, Creating(7, Neural, 5, true, {CAMERA})) == CREATED
  {
  }

  lemma EventRecorded(s: Source)
    requires s == Source(map[CAMERA := Analytics(true, None)], map[], 1)
    ensures Recorded(s, CAMERA, 11, true) == SOURCE
  {
    SmallTableKept(map[1 := SEEN], MAX_EVENT_ROWS);
  }

  lemma EventCaptured(j: Journal)
    requires j == Journal(map[7 := NEURAL], map[], 0, map[], 0, map[], map[])
    ensures Capture(j, [7], SOURCE, {CAMERA}) == Effect(With(QUEUED, map[], map[]), [Scanned(7, 1, true, Some(0))])
  {
    var ids := BatchFor(j, 7, SOURCE);
    assert 1 in ids && ids == [1];
    assert Pending(j.deliveries, 7) == {};
    var one := ScanOne(j, 7, 1, CAMERA, {CAMERA});
    assert one.journal == With(QUEUED, map[], map[]);
    assert ids[1..] == [];
    assert ScanBatch(one.journal, 7, [], SOURCE.events, {CAMERA}) == Effect(one.journal, []);
    assert [7][1..] == [];
  }

  const SHAKEN: map<ConnectionId, int> := map[7 := 160]

  /** A pull at or after the end of the lease hands the delivery out. */
  lemma HandedOutAt(d: Delivery, leases: map<LeaseKey, int>, now: int)
    requires (d == QUEUED && leases == map[] && now == 101) || (d == SENT && leases == map[(7, 0) := 103] && now == 103)
    ensures var next := d.(attempt := d.attempt + 1, sent := true);
            Pull(With(d, SHAKEN, leases), 7, 5, 10, {CAMERA}, now)
            == Ok(Effect(With(next, SHAKEN, map[(7, 0) := now + Backoff(next.attempt)]),
                         [HandedOut(7, 0, next.attempt, d.sent, now)]))
  {
    var j := With(d, SHAKEN, leases);
    var rows := Deliverable(j.deliveries, 7, 0, 1, SCAN);
    assert rows == [0];
    var one := HandOut(j, 7, 0, now);
    assert one.journal == With(d.(attempt := d.attempt + 1, sent := true), SHAKEN,
                               map[(7, 0) := now + Backoff(d.attempt + 1)]);
    assert rows[1..] == [];
    assert PullRows(one.journal, 7, [], 9, {CAMERA}, now) == Effect(one.journal, []);
    assert Ready(j, 7, 0, {CAMERA}, now);
    assert PullRows(j, 7, rows, 10, {CAMERA}, now) == Effect(one.journal, one.log + []);
    assert one.log + [] == [HandedOut(7, 0, d.attempt + 1, d.sent, now)];
  }

  lemma AnswerAccepted(d: Delivery, leases: map<LeaseKey, int>)
    requires (d == SENT_AGAIN && leases == map[(7, 0) := 107]) || (d == ANSWERED && leases == map[])
    ensures Respond(With(d, SHAKEN, leases), 7, 5, 1, true, 9, {CAMERA}, 104)
            == Ok(Effect(With(ANSWERED, SHAKEN, map[]), [Accepted(7, 0, 9, d == ANSWERED)]))
  {
    var j := With(d, SHAKEN, leases);
    assert Find(j.deliveries, 7, 1, 1) == Some(0);
    var answered := j.deliveries[0 := d.(response := Some(9))];
    assert answered == map[0 := ANSWERED];
    assert Newer(answered.Keys, 0) == {};
    assert Retained(answered) == answered;
    assert leases - {(7, 0)} == map[];
  }

  const STORY: seq<Action> := [
    Creating(7, Neural, 5, true, {CAMERA}), Configuring(CAMERA, Analytics(true, None)), Recording(CAMERA, 11, true),
    Capturing([7], {CAMERA}), Shaking(7, 5, true, 100),
    Pulling(7, 5, 10, {CAMERA}, 101), Pulling(7, 5, 10, {CAMERA}, 103),
    Responding(7, 5, 1, true, 9, {CAMERA}, 104), Responding(7, 5, 1, true, 9, {CAMERA}, 104)]

  lemma RunOne(k: nat)
    requires k < |STORY|
    ensures Run(STORY[..k + 1]) == Step(Run(STORY[..k]), STORY[k])
  {
    assert STORY[..k + 1][..k] == STORY[..k];
  }

  const QUEUING: World := World(
    With(QUEUED, SHAKEN, map[]), SOURCE, {7}, [Created(7), Scanned(7, 1, true, Some(0)), Shook(7, true, 100)])

  const SENT_OFF: World := World(
    With(SENT_AGAIN, SHAKEN, map[(7, 0) := 107]), SOURCE, {7},
    QUEUING.log + [HandedOut(7, 0, 1, false, 101), HandedOut(7, 0, 2, true, 103)])

  const STORED: World := World(
    Journal(map[7 := NEURAL], map[], 0, map[], 0, map[], map[]), SOURCE, {7}, [Created(7)])

  lemma FirstSteps()
    ensures Run(STORY[..3]) == STORED
  {
    hide Run, Recorded, Create;
    NothingRun();
    RunOne(0);
    RunOne(1);
    RunOne(2);
    CreatedFirst();
    EventRecorded(NO_EVENTS.(cameras := map[CAMERA := Analytics(true, None)]));
  }

  lemma NothingRun()
    ensures Run(STORY[..0]) == INITIAL
  {
  }

  lemma Opening()
    ensures Run(STORY[..5]) == QUEUING
  {
    hide Capture, Run;
    FirstSteps();
    RunOne(3);
    RunOne(4);
    EventCaptured(STORED.journal);
  }

  lemma HandedOutTwice()
    ensures Run(STORY[..7]) == SENT_OFF
  {
    hide Pull, Run;
    Opening();
    RunOne(5);
    RunOne(6);
    HandedOutAt(QUEUED, map[], 101);
    HandedOutAt(SENT, map[(7, 0) := 103], 103);
    assert Backoff(1) == 2 && Backoff(2) == 4;
  }

  lemma Ending()
    ensures Run(STORY[..9]).log == SENT_OFF.log + [Accepted(7, 0, 9, false), Accepted(7, 0, 9, true)]
  {
    hide Respond, Run;
    HandedOutTwice();
    RunOne(7);
    RunOne(8);
    AnswerAccepted(SENT_AGAIN, map[(7, 0) := 107]);
    AnswerAccepted(ANSWERED, map[]);
  }

  /** The run ends with its one delivery handed out twice, answered, and the answer sent again as a duplicate. */
  lemma StoryHappens()
    ensures Run(STORY).log == [
              Created(7), Scanned(7, 1, true, Some(0)), Shook(7, true, 100), HandedOut(7, 0, 1, false, 101),
              HandedOut(7, 0, 2, true, 103), Accepted(7, 0, 9, false), Accepted(7, 0, 9, true)]
  {
    hide Step;
    assert STORY[..9] == STORY;
    Ending();
  }

  // ---------------------------------------------------------------- an answer after a retry

  const RETRIED: seq<Action> := STORY[..6] + [Retrying(7), Shaking(7, 5, true, 104)]

  /** The row was sent, but its attempts were given back. */
  const RESET: World := World(
    With(SENT.(attempt := 0), map[7 := 164], map[]), SOURCE, {7},
    QUEUING.log + [HandedOut(7, 0, 1, false, 101), Retried(7), Shook(7, true, 104)])

  lemma RetryResets(j: Journal)
    requires j == With(SENT, SHAKEN, map[(7, 0) := 103])
    ensures Retry(j, 7) == Ok(Effect(With(SENT.(attempt := 0), map[], map[]), [Retried(7)]))
  {
    assert AttemptsReset(j.deliveries, 7) == map[0 := SENT.(attempt := 0)];
    assert j.handshakes - {7} == map[];
    assert LeasesWithout(j.leases, 7) == map[];
  }

  lemma RunsRetried()
    ensures Run(RETRIED) == RESET
  {
    hide Pull, Retry, Run;
    Opening();
    RunOne(5);
    HandedOutAt(QUEUED, map[], 101);
    assert Backoff(1) == 2;
    RetryResets(With(SENT, SHAKEN, map[(7, 0) := 103]));
    RunSnoc(STORY[..6], Retrying(7));
    RunSnoc(STORY[..6] + [Retrying(7)], Shaking(7, 5, true, 104));
    assert RETRIED == STORY[..6] + [Retrying(7)] + [Shaking(7, 5, true, 104)];
  }

  lemma RunSnoc(actions: seq<Action>, a: Action)
    ensures Run(actions + [a]) == Step(Run(actions), a)
  {
    assert (actions + [a])[..|actions|] == actions;
  }

  /** The run hands a delivery out and retries its connection; the answer that then comes is refused. */
  lemma LateAnswerHappens()
    ensures var w := Run(RETRIED);
            && w.log == [Created(7), Scanned(7, 1, true, Some(0)), Shook(7, true, 100), HandedOut(7, 0, 1, false, 101),
                         Retried(7), Shook(7, true, 104)]
            && Respond(w.journal, 7, 5, 1, true, 9, {CAMERA}, 105) == Err(Mismatch)
  {
    hide Run;
    RunsRetried();
    assert Find(RESET.journal.deliveries, 7, 1, 1) == Some(0);
  }
}
