/** Forwarding person events: in id order, exactly once, and nothing lost but what the producer pruned. */
module JournalForwarding {
  import opened Prelude
  import opened RetainedTable
  import opened PersonEvents
  import opened DeliveryJournal
  import opened JournalInvariant
  import opened JournalTrace

  /** A connection is told of person events in id order, each scanned and enqueued at most once, in queue order. */
  lemma ScannedInOrder(actions: seq<Action>, i: nat, k: nat)
    requires var log := Run(actions).log;
             i < k < |log| && log[i].Scanned? && log[k].Scanned?
    ensures var log := Run(actions).log;
            && (log[i].connection == log[k].connection ==> log[i].event < log[k].event)
            && (log[i].enqueued.Some? && log[k].enqueued.Some? ==> log[i].enqueued.value < log[k].enqueued.value)
  {
    AlwaysSound(actions);
    assert EntrySound(Run(actions).log, k);
  }

  /** The cursor is exactly the frontier: nothing beyond it was scanned, and every event still stored behind it was. */
  lemma CursorIsTheFrontier(actions: seq<Action>, c: ConnectionId)
    requires c in Run(actions).journal.connections
    ensures var w := Run(actions);
            var cursor := w.journal.connections[c].cursor;
            && (forall k | 0 <= k < |w.log| && w.log[k].Scanned? && w.log[k].connection == c :: w.log[k].event <= cursor)
            && (forall id | id in w.source.events && id <= cursor :: WasScanned(w.log, c, id))
            && cursor < w.source.next
  {
    AlwaysSound(actions);
  }

  /** Nothing is queued that the cursor has not passed. */
  lemma NothingQueuedBeyondCursor(actions: seq<Action>, s: Sequence)
    requires s in Run(actions).journal.deliveries
    ensures var j := Run(actions).journal;
            j.deliveries[s].connection in j.connections
            && j.deliveries[s].event <= j.connections[j.deliveries[s].connection].cursor
  {
    AlwaysSound(actions);
    assert DeliverySound(Run(actions).journal, s);
  }

  /** Scanning one event logs it, eligible or not, and moves only this connection's cursor, to it. */
  lemma ScanOneMoves(j: Journal, c: ConnectionId, event: EventId, camera: Camera, known: set<Camera>)
    requires c in j.connections
    ensures var one := ScanOne(j, c, event, camera, known);
            && |one.log| == 1 && ScanOf(one.log[0], c, event)
            && (one.log[0].eligible <==> Eligible(j, c, camera, known))
            && one.journal.connections == j.connections[c := j.connections[c].(cursor := event)]
            && (forall other :: Eligible(one.journal, c, other, known) <==> Eligible(j, c, other, known))
  {
  }

  /** The log of a scan: the first events of the batch in order, each flagged by whether it was granted and known. */
  ghost predicate ScansOf(
      log: seq<Happening>, j: Journal, c: ConnectionId, ids: seq<EventId>, events: map<EventId, PersonEvent>,
      known: set<Camera>)
    requires c in j.connections && forall id | id in ids :: id in events
  {
    && |log| <= |ids|
    && forall i | 0 <= i < |log| ::
         ScanOf(log[i], c, ids[i]) && (log[i].eligible <==> Eligible(j, c, events[ids[i]].camera, known))
  }

  lemma ScansOfCons(
      one: Effect, rest: seq<Happening>, j: Journal, c: ConnectionId, ids: seq<EventId>,
      events: map<EventId, PersonEvent>, known: set<Camera>)
    requires c in j.connections && ids != [] && forall id | id in ids :: id in events
    requires one == ScanOne(j, c, ids[0], events[ids[0]].camera, known)
    requires ScansOf(rest, one.journal, c, ids[1..], events, known)
    ensures ScansOf(one.log + rest, j, c, ids, events, known)
  {
    hide ScanOne, Eligible;
    ScanOneMoves(j, c, ids[0], events[ids[0]].camera, known);
    var all := one.log + rest;
    forall i | 0 <= i < |all|
      ensures ScanOf(all[i], c, ids[i]) && (all[i].eligible <==> Eligible(j, c, events[ids[i]].camera, known))
    {
      if i > 0 {
        assert all[i] == rest[i - 1] && ids[i] == ids[1..][i - 1];
      }
    }
  }

  /**
   One turn of a connection: a prefix of its batch is scanned in order, each event flagged by
   whether its camera was granted and known, and the cursor rests on the last of it; it stops short
   only before an eligible event that found the queue full.
   */
  lemma {:induction false} BatchMeaning(
      j: Journal, c: ConnectionId, ids: seq<EventId>, events: map<EventId, PersonEvent>, known: set<Camera>)
    requires c in j.connections && forall id | id in ids :: id in events
    ensures var r := ScanBatch(j, c, ids, events, known);
            var n := |r.log|;
            && ScansOf(r.log, j, c, ids, events, known)
            && (forall b | b in j.connections ::
                  b in r.journal.connections
                  && r.journal.connections[b].cursor == if b == c && n > 0 then ids[n - 1] else j.connections[b].cursor)
            && (n < |ids| ==>
                  && Eligible(j, c, events[ids[n]].camera, known)
                  && |Pending(r.journal.deliveries, c)| >= MAX_PENDING)
    decreases |ids|, 1
  {
    if ids != [] && !(Eligible(j, c, events[ids[0]].camera, known) && |Pending(j.deliveries, c)| >= MAX_PENDING) {
      var one := ScanOne(j, c, ids[0], events[ids[0]].camera, known);
      BatchTurn(j, c, ids, events, known, one);
    }
  }

  lemma {:induction false} BatchTurn(
      j: Journal, c: ConnectionId, ids: seq<EventId>, events: map<EventId, PersonEvent>, known: set<Camera>, one: Effect)
    requires c in j.connections && ids != [] && forall id | id in ids :: id in events
    requires !(Eligible(j, c, events[ids[0]].camera, known) && |Pending(j.deliveries, c)| >= MAX_PENDING)
    requires one == ScanOne(j, c, ids[0], events[ids[0]].camera, known)
    ensures var r := ScanBatch(j, c, ids, events, known);
            var n := |r.log|;
            && ScansOf(r.log, j, c, ids, events, known)
            && (forall b | b in j.connections ::
                  b in r.journal.connections
                  && r.journal.connections[b].cursor == if b == c && n > 0 then ids[n - 1] else j.connections[b].cursor)
            && (n < |ids| ==>
                  && Eligible(j, c, events[ids[n]].camera, known)
                  && |Pending(r.journal.deliveries, c)| >= MAX_PENDING)
    decreases |ids|, 0
  {
    hide ScanOne, Eligible, Pending, ScansOf;
    ScanOneMoves(j, c, ids[0], events[ids[0]].camera, known);
    BatchMeaning(one.journal, c, ids[1..], events, known);
    var rest := ScanBatch(one.journal, c, ids[1..], events, known);
    ScansOfCons(one, rest.log, j, c, ids, events, known);
    var n := |rest.log|;
    assert n > 0 ==> ids[1..][n - 1] == ids[n];
    assert n < |ids| - 1 ==> ids[1..][n] == ids[n + 1];
  }

  ghost predicate SequencesFresh(j: Journal) {
    forall s | s in j.deliveries :: s < j.nextDelivery
  }

  /** `entry` queued nothing, or exactly the unsent delivery of its event. */
  ghost predicate QueuedAs(j: Journal, entry: Happening, c: ConnectionId, event: EventId, camera: Camera) {
    entry.Scanned? && (entry.enqueued.Some? ==>
                         entry.enqueued.value in j.deliveries
                         && j.deliveries[entry.enqueued.value] == Delivery(c, event, camera, 0, None, false))
  }

  /** Rows are only added, and every added row is one that the log says was queued. */
  ghost predicate RowsAdded(j: Journal, t: Journal, log: seq<Happening>) {
    && SequencesFresh(t) && j.nextDelivery <= t.nextDelivery
    && (forall h | h in log :: h.Scanned? && h.enqueued.Some? ==> j.nextDelivery <= h.enqueued.value)
    && (forall s | s in j.deliveries :: s in t.deliveries && t.deliveries[s] == j.deliveries[s])
    && (forall s | s in t.deliveries && s !in j.deliveries ::
          exists i :: 0 <= i < |log| && log[i].Scanned? && log[i].enqueued == Some(s))
  }

  lemma ScanOneQueues(j: Journal, c: ConnectionId, event: EventId, camera: Camera, known: set<Camera>)
    requires c in j.connections && SequencesFresh(j)
    ensures var one := ScanOne(j, c, event, camera, known);
            RowsAdded(j, one.journal, one.log) && QueuedAs(one.journal, one.log[0], c, event, camera)
  {
    var one := ScanOne(j, c, event, camera, known);
    assert one.log[0].Scanned?;
  }

  lemma AddedTwice(j: Journal, t: Journal, u: Journal, log: seq<Happening>, more: seq<Happening>)
    requires RowsAdded(j, t, log) && RowsAdded(t, u, more)
    ensures RowsAdded(j, u, log + more)
  {
    forall s | s in u.deliveries && s !in j.deliveries
      ensures exists i :: 0 <= i < |log + more| && (log + more)[i].Scanned? && (log + more)[i].enqueued == Some(s)
    {
      if s in t.deliveries {
        var i :| 0 <= i < |log| && log[i].Scanned? && log[i].enqueued == Some(s);
        assert (log + more)[i] == log[i];
      } else {
        var i :| 0 <= i < |more| && more[i].Scanned? && more[i].enqueued == Some(s);
        assert (log + more)[|log| + i] == more[i];
      }
    }
  }

  ghost predicate AllQueuedAs(
      j: Journal, log: seq<Happening>, c: ConnectionId, ids: seq<EventId>, events: map<EventId, PersonEvent>)
    requires forall id | id in ids :: id in events
  {
    |log| <= |ids| && forall i | 0 <= i < |log| :: QueuedAs(j, log[i], c, ids[i], events[ids[i]].camera)
  }

  lemma AllQueuedCons(
      t: Journal, u: Journal, entry: Happening, log: seq<Happening>, more: seq<Happening>, c: ConnectionId,
      ids: seq<EventId>, events: map<EventId, PersonEvent>)
    requires ids != [] && forall id | id in ids :: id in events
    requires QueuedAs(t, entry, c, ids[0], events[ids[0]].camera) && RowsAdded(t, u, more)
    requires AllQueuedAs(u, log, c, ids[1..], events)
    ensures AllQueuedAs(u, [entry] + log, c, ids, events)
  {
    var all := [entry] + log;
    forall i | 0 <= i < |all|
      ensures QueuedAs(u, all[i], c, ids[i], events[ids[i]].camera)
    {
      if i > 0 {
        assert all[i] == log[i - 1] && ids[i] == ids[1..][i - 1];
      }
    }
  }

  lemma NothingAdded(j: Journal)
    requires SequencesFresh(j)
    ensures RowsAdded(j, j, [])
  {
  }

  /** A turn adds exactly the deliveries its log names, each for the event scanned, and touches no other row. */
  lemma {:induction false} BatchQueues(
      j: Journal, c: ConnectionId, ids: seq<EventId>, events: map<EventId, PersonEvent>, known: set<Camera>)
    requires c in j.connections && SequencesFresh(j) && forall id | id in ids :: id in events
    ensures var r := ScanBatch(j, c, ids, events, known);
            RowsAdded(j, r.journal, r.log) && AllQueuedAs(r.journal, r.log, c, ids, events)
    decreases |ids|
  {
    hide ScanOne, Eligible, Pending, SequencesFresh, RowsAdded, QueuedAs;
    if ids != [] && !(Eligible(j, c, events[ids[0]].camera, known) && |Pending(j.deliveries, c)| >= MAX_PENDING) {
      var one := ScanOne(j, c, ids[0], events[ids[0]].camera, known);
      ScanOneMoves(j, c, ids[0], events[ids[0]].camera, known);
      ScanOneQueues(j, c, ids[0], events[ids[0]].camera, known);
      AddedStaysFresh(j, one.journal, one.log);
      BatchQueues(one.journal, c, ids[1..], events, known);
      var rest := ScanBatch(one.journal, c, ids[1..], events, known);
      AddedTwice(j, one.journal, rest.journal, one.log, rest.log);
      assert one.log == [one.log[0]];
      AllQueuedCons(one.journal, rest.journal, one.log[0], rest.log, rest.log, c, ids, events);
    } else {
      NothingAdded(j);
    }
  }

  lemma AddedStaysFresh(j: Journal, t: Journal, log: seq<Happening>)
    requires RowsAdded(j, t, log)
    ensures SequencesFresh(t)
  {
  }

  // ---------------------------------------------------------------- a whole capture

  /** One entry of a capture against the journal before it and after it. */
  ghost predicate EntryExact(j: Journal, t: Journal, source: Source, known: set<Camera>, h: Happening) {
    && h.Scanned? && h.connection in j.connections && h.event in source.events
    && var camera := source.events[h.event].camera;
       && (h.eligible <==> Eligible(j, h.connection, camera, known))
       && QueuedAs(t, h, h.connection, h.event, camera)
  }

  /** What a capture leaves of the connections: all of them, with their grants. */
  ghost predicate GrantsKept(j: Journal, t: Journal) {
    forall c | c in j.connections :: c in t.connections && t.connections[c].grants == j.connections[c].grants
  }

  ghost predicate CaptureExact(j: Journal, source: Source, known: set<Camera>, r: Effect) {
    && GrantsKept(j, r.journal)
    && RowsAdded(j, r.journal, r.log)
    && (forall h | h in r.log :: EntryExact(j, r.journal, source, known, h))
  }

  lemma {:induction false} BatchKeepsGrants(
      j: Journal, c: ConnectionId, ids: seq<EventId>, events: map<EventId, PersonEvent>, known: set<Camera>)
    requires c in j.connections && forall id | id in ids :: id in events
    ensures GrantsKept(j, ScanBatch(j, c, ids, events, known).journal)
    decreases |ids|
  {
    if ids != [] && !(Eligible(j, c, events[ids[0]].camera, known) && |Pending(j.deliveries, c)| >= MAX_PENDING) {
      hide ScanOne, Eligible, Pending;
      var one := ScanOne(j, c, ids[0], events[ids[0]].camera, known);
      ScanOneMoves(j, c, ids[0], events[ids[0]].camera, known);
      BatchKeepsGrants(one.journal, c, ids[1..], events, known);
    }
  }

  lemma TurnExact(j: Journal, c: ConnectionId, source: Source, known: set<Camera>)
    requires SequencesFresh(j)
    ensures CaptureExact(j, source, known, CaptureFor(j, c, source, known))
  {
    hide RowsAdded, QueuedAs, Eligible, Pending, SequencesFresh, ScanBatch, GrantsKept;
    if Captures(j, c) {
      var ids := BatchFor(j, c, source);
      var r := CaptureFor(j, c, source, known);
      BatchMeaning(j, c, ids, source.events, known);
      BatchQueues(j, c, ids, source.events, known);
      BatchKeepsGrants(j, c, ids, source.events, known);
      forall h | h in r.log
        ensures EntryExact(j, r.journal, source, known, h)
      {
        var i :| 0 <= i < |r.log| && r.log[i] == h;
        assert ScanOf(r.log[i], c, ids[i]);
        assert QueuedAs(r.journal, r.log[i], c, ids[i], source.events[ids[i]].camera);
      }
    } else {
      NothingAdded(j);
      NoGrantsChanged(j);
    }
  }

  lemma NoGrantsChanged(j: Journal)
    ensures GrantsKept(j, j)
  {
  }

  lemma ExactTwice(j: Journal, source: Source, known: set<Camera>, one: Effect, rest: Effect)
    requires CaptureExact(j, source, known, one) && CaptureExact(one.journal, source, known, rest)
    requires forall h | h in rest.log :: h.Scanned? && h.connection in j.connections
    ensures CaptureExact(j, source, known, Effect(rest.journal, one.log + rest.log))
  {
    AddedTwice(j, one.journal, rest.journal, one.log, rest.log);
    forall h | h in one.log + rest.log
      ensures EntryExact(j, rest.journal, source, known, h)
    {
      if h in one.log {
        assert EntryExact(j, one.journal, source, known, h);
      } else {
        assert EntryExact(one.journal, rest.journal, source, known, h);
      }
    }
  }

  lemma TurnKeepsConnections(j: Journal, c: ConnectionId, source: Source, known: set<Camera>)
    ensures CaptureFor(j, c, source, known).journal.connections.Keys == j.connections.Keys
  {
    if Captures(j, c) {
      hide ScanBatch;
      BatchKeepsConnections(j, c, BatchFor(j, c, source), source.events, known);
    }
  }

  lemma {:induction false} BatchKeepsConnections(
      j: Journal, c: ConnectionId, ids: seq<EventId>, events: map<EventId, PersonEvent>, known: set<Camera>)
    requires c in j.connections && forall id | id in ids :: id in events
    ensures ScanBatch(j, c, ids, events, known).journal.connections.Keys == j.connections.Keys
    decreases |ids|
  {
    if ids != [] && !(Eligible(j, c, events[ids[0]].camera, known) && |Pending(j.deliveries, c)| >= MAX_PENDING) {
      hide ScanOne, Eligible, Pending;
      var one := ScanOne(j, c, ids[0], events[ids[0]].camera, known);
      ScanOneMoves(j, c, ids[0], events[ids[0]].camera, known);
      BatchKeepsConnections(one.journal, c, ids[1..], events, known);
    }
  }

  lemma {:induction false} CaptureIsExact(j: Journal, order: seq<ConnectionId>, source: Source, known: set<Camera>)
    requires SequencesFresh(j)
    ensures CaptureExact(j, source, known, Capture(j, order, source, known))
    decreases |order|
  {
    hide CaptureFor, SequencesFresh, RowsAdded, GrantsKept, EntryExact;
    if order == [] {
      NothingAdded(j);
      NoGrantsChanged(j);
    } else {
      var one := CaptureFor(j, order[0], source, known);
      TurnExact(j, order[0], source, known);
      AddedStaysFresh(j, one.journal, one.log);
      CaptureIsExact(one.journal, order[1..], source, known);
      var rest := Capture(one.journal, order[1..], source, known);
      TurnKeepsConnections(j, order[0], source, known);
      forall h | h in rest.log
        ensures h.Scanned? && h.connection in j.connections
      {
        EntryOfConnection(one.journal, rest.journal, source, known, h);
      }
      ExactTwice(j, source, known, one, rest);
    }
  }

  lemma EntryOfConnection(j: Journal, t: Journal, source: Source, known: set<Camera>, h: Happening)
    requires EntryExact(j, t, source, known, h)
    ensures h.Scanned? && h.connection in j.connections
  {
  }

  lemma InvIsFresh(j: Journal)
    requires Inv(j)
    ensures SequencesFresh(j)
  {
    forall s | s in j.deliveries
      ensures s < j.nextDelivery
    {
      SequenceKnown(j, s);
    }
  }

  /**
   Forwarding at any point of any run: every entry a capture logs is about a connection and an event
   there at that moment; the event is enqueued exactly when its camera is granted to that connection
   and known, and then as an unsent delivery under a sequence no row had.
   */
  lemma EligibleIsEnqueued(actions: seq<Action>, order: seq<ConnectionId>, known: set<Camera>, k: nat)
    requires var w, w' := Run(actions), Step(Run(actions), Capturing(order, known)); |w.log| <= k < |w'.log|
    ensures var w, w' := Run(actions), Step(Run(actions), Capturing(order, known));
            var h := w'.log[k];
            && w.log <= w'.log
            && h.Scanned? && h.connection in w.journal.connections && h.event in w.source.events
            && var camera := w.source.events[h.event].camera;
               && (h.enqueued.Some?
                   <==> camera in w.journal.connections[h.connection].grants && camera in known)
               && (h.enqueued.Some? ==>
                     && h.enqueued.value !in w.journal.deliveries
                     && h.enqueued.value in w'.journal.deliveries
                     && w'.journal.deliveries[h.enqueued.value]
                        == Delivery(h.connection, h.event, camera, 0, None, false))
  {
    hide Run, Capture, TraceInv;
    var w, w' := Run(actions), Step(Run(actions), Capturing(order, known));
    var r := Capture(w.journal, order, w.source, known);
    AlwaysSound(actions);
    TraceIsFresh(w);
    CaptureIsExact(w.journal, order, w.source, known);
    StepKeepsTrace(w, Capturing(order, known));
    assert w'.log[k] == r.log[k - |w.log|] && w'.log[k] in r.log;
    assert EntryExact(w.journal, r.journal, w.source, known, w'.log[k]);
    ScanIsFresh(w', k);
  }

  lemma TraceIsFresh(w: World)
    requires TraceInv(w)
    ensures SequencesFresh(w.journal)
  {
    InvIsFresh(w.journal);
  }

  lemma ScanIsFresh(w: World, k: nat)
    requires TraceInv(w) && k < |w.log| && w.log[k].Scanned?
    ensures w.log[k].eligible <==> w.log[k].enqueued.Some?
  {
    assert EntrySound(w.log, k);
  }

  lemma TurnRaisesCursor(j: Journal, c: ConnectionId, source: Source, known: set<Camera>, b: ConnectionId)
    requires b in j.connections
    ensures var r := CaptureFor(j, c, source, known).journal;
            b in r.connections && r.connections[b].cursor >= j.connections[b].cursor
  {
    if Captures(j, c) {
      BatchMeaning(j, c, BatchFor(j, c, source), source.events, known);
    }
  }

  lemma {:induction false} CaptureRaisesCursor(
      j: Journal, order: seq<ConnectionId>, source: Source, known: set<Camera>, b: ConnectionId)
    requires b in j.connections
    ensures var r := Capture(j, order, source, known).journal;
            b in r.connections && r.connections[b].cursor >= j.connections[b].cursor
    decreases |order|
  {
    if order != [] {
      TurnRaisesCursor(j, order[0], source, known, b);
      CaptureRaisesCursor(CaptureFor(j, order[0], source, known).journal, order[1..], source, known, b);
    }
  }

  lemma {:induction false} PullLeavesConnections(
      j: Journal, c: ConnectionId, rows: seq<Sequence>, limit: nat, known: set<Camera>, now: int)
    requires c in j.connections && forall s | s in rows :: s in j.deliveries
    ensures PullRows(j, c, rows, limit, known, now).journal.connections == j.connections
    decreases |rows|
  {
    if rows != [] && limit > 0 {
      if Ready(j, c, rows[0], known, now) {
        PullLeavesConnections(HandOut(j, c, rows[0], now).journal, c, rows[1..], limit - 1, known, now);
      } else {
        PullLeavesConnections(j, c, rows[1..], limit, known, now);
      }
    }
  }

  lemma StepRaisesCursor(w: World, a: Action, c: ConnectionId)
    requires c in w.journal.connections && c in w.used && c in Step(w, a).journal.connections
    ensures Step(w, a).journal.connections[c].cursor >= w.journal.connections[c].cursor
  {
    hide Capture, PullRows, Recorded, Deliverable;
    match a {
      case Capturing(order, known) => CaptureRaisesCursor(w.journal, order, w.source, known, c);
      case Pulling(b, token, limit, known, now) =>
        if Pull(w.journal, b, token, limit, known, now).Ok? {
          PullLeavesConnections(
            w.journal, b, Deliverable(w.journal.deliveries, b, 0, w.journal.nextDelivery, SCAN), limit, known, now);
        }
      case _ =>
    }
  }

  /** No step ever moves a connection's cursor back. */
  lemma CursorNeverDecreases(actions: seq<Action>, a: Action, c: ConnectionId)
    requires c in Run(actions).journal.connections && c in Step(Run(actions), a).journal.connections
    ensures Step(Run(actions), a).journal.connections[c].cursor >= Run(actions).journal.connections[c].cursor
  {
    AlwaysSound(actions);
    hide Step, Inv, SourceSound, RowsMirror, LogSound;
    StepRaisesCursor(Run(actions), a, c);
  }

  // ---------------------------------------------------------------- where every row came from

  /** `s` was queued for `event` of `c`. */
  ghost predicate QueuedFor(log: seq<Happening>, s: Sequence, c: ConnectionId, event: EventId) {
    exists k :: 0 <= k < |log| && ScanOf(log[k], c, event) && log[k].enqueued == Some(s)
  }

  /** Every stored row is the one its scan queued. */
  ghost predicate RowsQueued(w: World) {
    forall s | s in w.journal.deliveries ::
      QueuedFor(w.log, s, w.journal.deliveries[s].connection, w.journal.deliveries[s].event)
  }

  /** Rows only go, or change in what a connection does with them. */
  ghost predicate SameKeys(old': map<Sequence, Delivery>, new': map<Sequence, Delivery>) {
    forall s | s in new' :: s in old' && DeliveryKey(new'[s]) == DeliveryKey(old'[s])
  }

  lemma SameKeysKeepQueued(w: World, w': World)
    requires RowsQueued(w) && w.log <= w'.log && SameKeys(w.journal.deliveries, w'.journal.deliveries)
    ensures RowsQueued(w')
  {
    forall s | s in w'.journal.deliveries
      ensures QueuedFor(w'.log, s, w'.journal.deliveries[s].connection, w'.journal.deliveries[s].event)
    {
      var d := w.journal.deliveries[s];
      var k :| 0 <= k < |w.log| && ScanOf(w.log[k], d.connection, d.event) && w.log[k].enqueued == Some(s);
      assert w'.log[k] == w.log[k];
      assert DeliveryKey(w'.journal.deliveries[s]) == DeliveryKey(d);
    }
  }

  lemma {:induction false} PullKeepsKeys(
      j: Journal, c: ConnectionId, rows: seq<Sequence>, limit: nat, known: set<Camera>, now: int)
    requires c in j.connections && forall s | s in rows :: s in j.deliveries
    ensures SameKeys(j.deliveries, PullRows(j, c, rows, limit, known, now).journal.deliveries)
    decreases |rows|
  {
    if rows != [] && limit > 0 {
      if Ready(j, c, rows[0], known, now) {
        PullKeepsKeys(HandOut(j, c, rows[0], now).journal, c, rows[1..], limit - 1, known, now);
      } else {
        PullKeepsKeys(j, c, rows[1..], limit, known, now);
      }
    }
  }

  lemma CaptureKeepsQueued(w: World, order: seq<ConnectionId>, known: set<Camera>)
    requires RowsQueued(w) && SequencesFresh(w.journal)
    ensures RowsQueued(Step(w, Capturing(order, known)))
  {
    hide Capture, SequencesFresh;
    var w', r := Step(w, Capturing(order, known)), Capture(w.journal, order, w.source, known);
    CaptureIsExact(w.journal, order, w.source, known);
    forall s | s in w'.journal.deliveries
      ensures QueuedFor(w'.log, s, w'.journal.deliveries[s].connection, w'.journal.deliveries[s].event)
    {
      if s in w.journal.deliveries {
        var d := w.journal.deliveries[s];
        var k :| 0 <= k < |w.log| && ScanOf(w.log[k], d.connection, d.event) && w.log[k].enqueued == Some(s);
        assert w'.log[k] == w.log[k];
      } else {
        var i :| 0 <= i < |r.log| && r.log[i].Scanned? && r.log[i].enqueued == Some(s);
        assert r.log[i] in r.log && EntryExact(w.journal, r.journal, w.source, known, r.log[i]);
        assert w'.log[|w.log| + i] == r.log[i];
      }
    }
  }

  lemma StepKeepsQueued(w: World, a: Action)
    requires RowsQueued(w) && SequencesFresh(w.journal)
    ensures RowsQueued(Step(w, a))
  {
    hide RowsQueued, SequencesFresh, Capture, PullRows, Deliverable, FindRow, Recorded, Edited;
    match a {
      case Capturing(order, known) => CaptureKeepsQueued(w, order, known);
      case Pulling(c, token, limit, known, now) =>
        if Pull(w.journal, c, token, limit, known, now).Ok? {
          PullKeepsKeys(
            w.journal, c, Deliverable(w.journal.deliveries, c, 0, w.journal.nextDelivery, SCAN), limit, known, now);
        }
        SameKeysKeepQueued(w, Step(w, a));
      case _ => SameKeysKeepQueued(w, Step(w, a));
    }
  }

  lemma {:induction false} AlwaysQueued(actions: seq<Action>)
    ensures RowsQueued(Run(actions))
  {
    if actions != [] {
      hide RowsQueued, Step, TraceInv;
      AlwaysQueued(actions[..|actions| - 1]);
      AlwaysSound(actions[..|actions| - 1]);
      TraceIsFresh(Run(actions[..|actions| - 1]));
      StepKeepsQueued(Run(actions[..|actions| - 1]), actions[|actions| - 1]);
    }
  }

  /** An event is never queued twice for one connection, not even after its row is gone. */
  lemma QueuedOnce(actions: seq<Action>, s: Sequence, t: Sequence, c: ConnectionId, event: EventId)
    requires QueuedFor(Run(actions).log, s, c, event) && QueuedFor(Run(actions).log, t, c, event)
    ensures s == t
  {
    hide Run;
    var log := Run(actions).log;
    var i :| 0 <= i < |log| && ScanOf(log[i], c, event) && log[i].enqueued == Some(s);
    var k :| 0 <= k < |log| && ScanOf(log[k], c, event) && log[k].enqueued == Some(t);
    if i < k {
      ScannedInOrder(actions, i, k);
    } else if k < i {
      ScannedInOrder(actions, k, i);
    }
  }
}
