/** Every operation of the delivery journal keeps its whole-journal invariant. */
module JournalInvariant {
  import opened Prelude
  import opened RetainedTable
  import opened PersonEvents
  import opened DeliveryJournal

  lemma SequenceKnown(j: Journal, s: Sequence)
    requires Inv(j) && s in j.deliveries
    ensures s < j.nextDelivery
  {
    assert DeliverySound(j, s);
  }

  // ---------------------------------------------------------------- administration

  /** A journal whose deliveries are some of the old ones, unchanged but for attempts given back. */
  ghost predicate FewerDeliveries(old': map<Sequence, Delivery>, new': map<Sequence, Delivery>) {
    forall s | s in new' ::
      && s in old'
      && (new'[s] == old'[s] || (old'[s].response.None? && new'[s] == old'[s].(attempt := 0)))
  }

  lemma FewerKeepsQueues(old': map<Sequence, Delivery>, new': map<Sequence, Delivery>)
    requires FewerDeliveries(old', new') && QueuesBounded(old') && InEventOrder(old')
    ensures QueuesBounded(new') && InEventOrder(new')
  {
    forall c: ConnectionId
      ensures |Pending(new', c)| <= MAX_PENDING
    {
      SubsetCount(Pending(new', c), Pending(old', c));
    }
    SubsetCount(Answered(new'), Answered(old'));
  }

  /** Deliveries stay sound when their connections keep cursors and grants. */
  lemma SameDeliveriesSound(j: Journal, t: Journal)
    requires forall s | s in j.deliveries :: DeliverySound(j, s)
    requires t.deliveries == j.deliveries && t.nextDelivery == j.nextDelivery
    requires forall c | c in j.connections :: c in t.connections && t.connections[c] == j.connections[c]
    ensures forall s | s in t.deliveries :: DeliverySound(t, s)
  {
    forall s | s in t.deliveries
      ensures DeliverySound(t, s)
    {
      assert DeliverySound(j, s);
    }
  }

  lemma InsertCount<K, V>(table: map<K, V>, key: K, value: V)
    requires key !in table
    ensures |table[key := value]| == |table| + 1
  {
    assert table[key := value].Keys == table.Keys + {key};
  }

  lemma CreateKeepsConnections(
      j: Journal, c: ConnectionId, kind: Kind, token: Token, enabled: bool, grants: set<Camera>)
    requires ConnectionsSound(j) && c !in j.connections
    ensures var r := Create(j, c, kind, token, enabled, grants); r.Ok? ==> ConnectionsSound(r.value.journal)
  {
    var r := Create(j, c, kind, token, enabled, grants);
    if r.Ok? {
      InsertCount(j.connections, c, r.value.journal.connections[c]);
    }
  }

  lemma CreateKeepsInv(j: Journal, c: ConnectionId, kind: Kind, token: Token, enabled: bool, grants: set<Camera>)
    requires Inv(j) && c !in j.connections
    ensures var r := Create(j, c, kind, token, enabled, grants); r.Ok? ==> Inv(r.value.journal)
  {
    var r := Create(j, c, kind, token, enabled, grants);
    if r.Ok? {
      CreateKeepsConnections(j, c, kind, token, enabled, grants);
      SameDeliveriesSound(j, r.value.journal);
    }
  }

  lemma UpdateKeepsTables(j: Journal, c: ConnectionId, changes: Changes)
    requires ConnectionsSound(j) && ReceivedSound(j) && Update(j, c, changes).Ok?
    ensures var t := Update(j, c, changes).value.journal;
            ConnectionsSound(t) && ReceivedSound(t) && FewerDeliveries(j.deliveries, t.deliveries)
  {
    assert Update(j, c, changes).value.journal.connections.Keys == j.connections.Keys;
  }

  lemma UpdateKeepsLeases(j: Journal, c: ConnectionId, changes: Changes)
    requires LeasesSound(j) && Update(j, c, changes).Ok?
    ensures LeasesSound(Update(j, c, changes).value.journal)
  {
    hide Edited, AsksNothing;
  }

  lemma UpdateKeepsInv(j: Journal, c: ConnectionId, changes: Changes)
    requires Inv(j)
    ensures var r := Update(j, c, changes); r.Ok? ==> Inv(r.value.journal)
  {
    hide DeliverySound, InEventOrder, QueuesBounded, ConnectionsSound, ReceivedSound, LeasesSound, FewerDeliveries;
    hide Update;
    if Update(j, c, changes).Ok? {
      UpdateKeepsTables(j, c, changes);
      UpdateKeepsLeases(j, c, changes);
      FewerKeepsQueues(j.deliveries, Update(j, c, changes).value.journal.deliveries);
      UpdateKeepsDeliveries(j, c, changes);
    }
  }

  lemma UpdateKeepsDeliveries(j: Journal, c: ConnectionId, changes: Changes)
    requires forall s | s in j.deliveries :: DeliverySound(j, s)
    requires Update(j, c, changes).Ok?
    ensures var t := Update(j, c, changes).value.journal; forall s | s in t.deliveries :: DeliverySound(t, s)
  {
    var t := Update(j, c, changes).value.journal;
    forall s | s in t.deliveries
      ensures DeliverySound(t, s)
    {
      assert DeliverySound(j, s);
    }
  }

  lemma DeleteKeepsTables(j: Journal, c: ConnectionId)
    requires ConnectionsSound(j) && ReceivedSound(j) && Delete(j, c).Ok?
    ensures var t := Delete(j, c).value.journal; ConnectionsSound(t) && ReceivedSound(t)
  {
    var t := Delete(j, c).value.journal;
    SubsetCount(t.connections.Keys, j.connections.Keys);
    SubsetCount(t.received.Keys, j.received.Keys);
  }

  lemma DeleteKeepsInv(j: Journal, c: ConnectionId)
    requires Inv(j)
    ensures var r := Delete(j, c); r.Ok? ==> Inv(r.value.journal)
  {
    var r := Delete(j, c);
    if r.Ok? {
      var t := r.value.journal;
      DeleteKeepsTables(j, c);
      FewerKeepsQueues(j.deliveries, t.deliveries);
      forall s | s in t.deliveries
        ensures DeliverySound(t, s)
      {
        assert DeliverySound(j, s);
      }
    }
  }

  lemma RetryKeepsDeliveries(j: Journal, c: ConnectionId)
    requires forall s | s in j.deliveries :: DeliverySound(j, s)
    requires Retry(j, c).Ok?
    ensures var t := Retry(j, c).value.journal; forall s | s in t.deliveries :: DeliverySound(t, s)
  {
    var t := Retry(j, c).value.journal;
    forall s | s in t.deliveries
      ensures DeliverySound(t, s)
    {
      assert DeliverySound(j, s);
    }
  }

  lemma RetryKeepsInv(j: Journal, c: ConnectionId)
    requires Inv(j)
    ensures var r := Retry(j, c); r.Ok? ==> Inv(r.value.journal)
  {
    var r := Retry(j, c);
    if r.Ok? {
      FewerKeepsQueues(j.deliveries, r.value.journal.deliveries);
      RetryKeepsDeliveries(j, c);
    }
  }

  lemma HandshakeKeepsInv(j: Journal, c: ConnectionId, token: Token, compatible: bool, now: int)
    requires Inv(j)
    ensures Inv(ShakeHands(j, c, token, compatible, now).0)
  {
    var t := ShakeHands(j, c, token, compatible, now).0;
    forall s | s in t.deliveries
      ensures DeliverySound(t, s)
    {
      assert DeliverySound(j, s);
    }
  }

  lemma RestartKeepsInv(j: Journal)
    requires Inv(j)
    ensures Inv(Restart(j).journal)
  {
    forall s | s in j.deliveries
      ensures DeliverySound(Restart(j).journal, s)
    {
      assert DeliverySound(j, s);
    }
  }

  // ---------------------------------------------------------------- forwarding

  /** An event past the cursor was never enqueued, so inserting it is never ignored. */
  lemma EnqueueIsNew(j: Journal, c: ConnectionId, event: EventId, camera: Camera)
    requires Inv(j) && c in j.connections && event > j.connections[c].cursor
    ensures Enqueue(j, c, event, camera).1 == Some(j.nextDelivery)
    ensures j.nextDelivery !in j.deliveries
  {
    assert forall s | s in j.deliveries :: DeliverySound(j, s);
  }

  lemma PendingAfterInsert(deliveries: map<Sequence, Delivery>, s: Sequence, d: Delivery, c: ConnectionId)
    requires s !in deliveries && d.response.None?
    ensures Pending(deliveries[s := d], c) == Pending(deliveries, c) + if d.connection == c then {s} else {}
    ensures Answered(deliveries[s := d]) == Answered(deliveries)
  {
  }

  lemma InsertKeepsQueues(deliveries: map<Sequence, Delivery>, s: Sequence, d: Delivery)
    requires QueuesBounded(deliveries) && s !in deliveries && d.response.None?
    requires |Pending(deliveries, d.connection)| < MAX_PENDING
    ensures QueuesBounded(deliveries[s := d])
  {
    var after := deliveries[s := d];
    forall c: ConnectionId
      ensures |Pending(after, c)| <= MAX_PENDING
    {
      PendingAfterInsert(deliveries, s, d, c);
    }
    PendingAfterInsert(deliveries, s, d, d.connection);
  }

  lemma InsertKeepsOrder(j: Journal, c: ConnectionId, d: Delivery)
    requires Inv(j) && c in j.connections && d.connection == c && d.event > j.connections[c].cursor
    ensures InEventOrder(j.deliveries[j.nextDelivery := d])
  {
    assert forall s | s in j.deliveries :: DeliverySound(j, s);
  }

  /** The journal after one new unanswered delivery, its connection's cursor moved to it. */
  function Inserted(j: Journal, c: ConnectionId, d: Delivery): Journal
    requires c in j.connections
  {
    j.(deliveries := j.deliveries[j.nextDelivery := d], nextDelivery := j.nextDelivery + 1,
       connections := j.connections[c := j.connections[c].(cursor := d.event)])
  }

  lemma InsertKeepsDeliveries(j: Journal, c: ConnectionId, d: Delivery, s: Sequence)
    requires c in j.connections && d.event > j.connections[c].cursor && s in Inserted(j, c, d).deliveries
    requires forall t | t in j.deliveries :: DeliverySound(j, t)
    requires d == Delivery(c, d.event, d.camera, 0, None, false) && d.camera in j.connections[c].grants
    ensures DeliverySound(Inserted(j, c, d), s)
  {
    assert s in j.deliveries ==> DeliverySound(j, s);
  }

  lemma InsertKeepsTheRest(j: Journal, c: ConnectionId, d: Delivery)
    requires ConnectionsSound(j) && LeasesSound(j) && ReceivedSound(j)
    requires c in j.connections && j.nextDelivery !in j.deliveries
    ensures var t := Inserted(j, c, d); ConnectionsSound(t) && LeasesSound(t) && ReceivedSound(t)
  {
    assert Inserted(j, c, d).connections.Keys == j.connections.Keys;
  }

  lemma InsertKeepsInv(j: Journal, c: ConnectionId, d: Delivery)
    requires Inv(j) && c in j.connections && d.event > j.connections[c].cursor
    requires d == Delivery(c, d.event, d.camera, 0, None, false) && d.camera in j.connections[c].grants
    requires |Pending(j.deliveries, c)| < MAX_PENDING
    ensures Inv(Inserted(j, c, d))
  {
    hide DeliverySound, InEventOrder, QueuesBounded, LeasesSound, ReceivedSound, ConnectionsSound, Pending, Enqueue;
    EnqueueIsNew(j, c, d.event, d.camera);
    InsertKeepsQueues(j.deliveries, j.nextDelivery, d);
    InsertKeepsOrder(j, c, d);
    InsertKeepsTheRest(j, c, d);
    forall s | s in Inserted(j, c, d).deliveries
      ensures DeliverySound(Inserted(j, c, d), s)
    {
      InsertKeepsDeliveries(j, c, d, s);
    }
  }

  lemma CursorKeepsInv(j: Journal, c: ConnectionId, event: EventId)
    requires Inv(j) && c in j.connections && event > j.connections[c].cursor
    ensures Inv(j.(connections := j.connections[c := j.connections[c].(cursor := event)]))
  {
    var t := j.(connections := j.connections[c := j.connections[c].(cursor := event)]);
    assert t.connections.Keys == j.connections.Keys;
    forall s | s in t.deliveries
      ensures DeliverySound(t, s)
    {
      assert DeliverySound(j, s);
    }
  }

  lemma ScanOneKeepsInv(j: Journal, c: ConnectionId, event: EventId, camera: Camera, known: set<Camera>)
    requires Inv(j) && c in j.connections && event > j.connections[c].cursor
    requires Eligible(j, c, camera, known) ==> |Pending(j.deliveries, c)| < MAX_PENDING
    ensures var r := ScanOne(j, c, event, camera, known);
            && Inv(r.journal)
            && r.journal.connections == j.connections[c := j.connections[c].(cursor := event)]
            && r.log == [Scanned(c, event, Eligible(j, c, camera, known),
                                 if Eligible(j, c, camera, known) then Some(j.nextDelivery) else None)]
  {
    EnqueueIsNew(j, c, event, camera);
    if Eligible(j, c, camera, known) {
      InsertKeepsInv(j, c, Delivery(c, event, camera, 0, None, false));
    } else {
      CursorKeepsInv(j, c, event);
    }
  }

  lemma {:induction false} ScanBatchKeepsInv(
      j: Journal, c: ConnectionId, ids: seq<EventId>, events: map<EventId, PersonEvent>, known: set<Camera>)
    requires Inv(j) && c in j.connections
    requires forall id | id in ids :: id in events
    requires forall i | 0 <= i < |ids| :: ids[i] > j.connections[c].cursor
    requires forall i, l | 0 <= i < l < |ids| :: ids[i] < ids[l]
    ensures Inv(ScanBatch(j, c, ids, events, known).journal)
    decreases |ids|
  {
    hide Inv, Pending, ScanOne;
    if ids != [] && !(Eligible(j, c, events[ids[0]].camera, known) && |Pending(j.deliveries, c)| >= MAX_PENDING) {
      ScanOneKeepsInv(j, c, ids[0], events[ids[0]].camera, known);
      ScanBatchKeepsInv(ScanOne(j, c, ids[0], events[ids[0]].camera, known).journal, c, ids[1..], events, known);
    }
  }

  lemma BatchKeepsInv(
      j: Journal, c: ConnectionId, ids: seq<EventId>, past: EventId, events: map<EventId, PersonEvent>, known: set<Camera>)
    requires Inv(j) && c in j.connections
    requires IsBatch(events, j.connections[c].cursor + 1, past, BATCH, ids)
    ensures Inv(ScanBatch(j, c, ids, events, known).journal)
  {
    ScanBatchKeepsInv(j, c, ids, events, known);
  }

  lemma CaptureForKeepsInv(j: Journal, c: ConnectionId, source: Source, known: set<Camera>)
    requires Inv(j)
    ensures Inv(CaptureFor(j, c, source, known).journal)
  {
    if Captures(j, c) {
      BatchKeepsInv(j, c, BatchFor(j, c, source), source.next, source.events, known);
    }
  }

  lemma {:induction false} CaptureKeepsInv(j: Journal, order: seq<ConnectionId>, source: Source, known: set<Camera>)
    requires Inv(j)
    ensures Inv(Capture(j, order, source, known).journal)
    decreases |order|
  {
    if order != [] {
      CaptureForKeepsInv(j, order[0], source, known);
      CaptureKeepsInv(CaptureFor(j, order[0], source, known).journal, order[1..], source, known);
    }
  }

  // ---------------------------------------------------------------- hand-outs and responses

  /** Rewriting one row without answering it or changing whose it is. */
  lemma RewriteKeepsQueues(deliveries: map<Sequence, Delivery>, s: Sequence, d: Delivery)
    requires QueuesBounded(deliveries) && InEventOrder(deliveries) && s in deliveries
    requires d.connection == deliveries[s].connection && d.event == deliveries[s].event
    requires d.response == deliveries[s].response
    ensures QueuesBounded(deliveries[s := d]) && InEventOrder(deliveries[s := d])
  {
    var after := deliveries[s := d];
    assert forall c: ConnectionId :: Pending(after, c) == Pending(deliveries, c);
    assert Answered(after) == Answered(deliveries);
  }

  lemma HandOutKeepsTables(j: Journal, c: ConnectionId, s: Sequence, now: int)
    requires ConnectionsSound(j) && LeasesSound(j) && ReceivedSound(j) && PendingFor(j.deliveries, c, s)
    ensures var t := HandOut(j, c, s, now).journal; ConnectionsSound(t) && LeasesSound(t) && ReceivedSound(t)
  {
    hide Backoff;
  }

  lemma HandOutKeepsInv(j: Journal, c: ConnectionId, s: Sequence, now: int)
    requires Inv(j) && PendingFor(j.deliveries, c, s) && j.deliveries[s].attempt < MAX_ATTEMPTS
    ensures Inv(HandOut(j, c, s, now).journal)
  {
    hide ConnectionsSound, LeasesSound, ReceivedSound, QueuesBounded, InEventOrder, Backoff;
    var t := HandOut(j, c, s, now).journal;
    RewriteKeepsQueues(j.deliveries, s, t.deliveries[s]);
    HandOutKeepsTables(j, c, s, now);
    forall u | u in t.deliveries
      ensures DeliverySound(t, u)
    {
      assert DeliverySound(j, u);
    }
  }

  /** Rows a pull may still hand out: unanswered, with attempts left, each once. */
  ghost predicate Fetched(deliveries: map<Sequence, Delivery>, c: ConnectionId, rows: seq<Sequence>) {
    && (forall s | s in rows :: PendingFor(deliveries, c, s) && deliveries[s].attempt < MAX_ATTEMPTS)
    && (forall i, l | 0 <= i < l < |rows| :: rows[i] < rows[l])
  }

  lemma FetchedRest(j: Journal, c: ConnectionId, rows: seq<Sequence>, now: int)
    requires rows != [] && rows[0] in j.deliveries && Fetched(j.deliveries, c, rows)
    ensures Fetched(j.deliveries, c, rows[1..])
    ensures Fetched(HandOut(j, c, rows[0], now).journal.deliveries, c, rows[1..])
  {
    forall s | s in rows[1..]
      ensures s in rows && s != rows[0]
    {
      var i :| 0 <= i < |rows| - 1 && rows[1..][i] == s;
      assert rows[i + 1] == s;
    }
  }

  lemma {:induction false} PullRowsKeepInv(
      j: Journal, c: ConnectionId, rows: seq<Sequence>, limit: nat, known: set<Camera>, now: int)
    requires Inv(j) && c in j.connections && Fetched(j.deliveries, c, rows)
    ensures Inv(PullRows(j, c, rows, limit, known, now).journal)
    decreases |rows|
  {
    hide Inv;
    if rows != [] && limit > 0 {
      assert rows[0] in rows;
      FetchedRest(j, c, rows, now);
      if Ready(j, c, rows[0], known, now) {
        HandOutKeepsInv(j, c, rows[0], now);
        PullRowsKeepInv(HandOut(j, c, rows[0], now).journal, c, rows[1..], limit - 1, known, now);
      } else {
        PullRowsKeepInv(j, c, rows[1..], limit, known, now);
      }
    }
  }

  lemma PullKeepsInv(j: Journal, c: ConnectionId, token: Token, limit: int, known: set<Camera>, now: int)
    requires Inv(j)
    ensures var r := Pull(j, c, token, limit, known, now); r.Ok? ==> Inv(r.value.journal)
  {
    if Pull(j, c, token, limit, known, now).Ok? {
      PullRowsKeepInv(j, c, Deliverable(j.deliveries, c, 0, j.nextDelivery, SCAN), limit, known, now);
    }
  }

  /** The retention delete bounds the answered rows, however many unanswered ones there are. */
  lemma RetentionBoundsAnswered(deliveries: map<Sequence, Delivery>)
    ensures |Answered(Retained(deliveries))| <= MAX_RETAINED
  {
    NewestBounded(deliveries.Keys, Answered(Retained(deliveries)), MAX_RETAINED);
  }

  lemma AnswerKeepsQueues(deliveries: map<Sequence, Delivery>, s: Sequence, d: Delivery)
    requires QueuesBounded(deliveries) && InEventOrder(deliveries) && s in deliveries
    requires d.connection == deliveries[s].connection && d.event == deliveries[s].event && d.response.Some?
    ensures QueuesBounded(Retained(deliveries[s := d])) && InEventOrder(Retained(deliveries[s := d]))
  {
    var kept := Retained(deliveries[s := d]);
    RetentionBoundsAnswered(deliveries[s := d]);
    forall c: ConnectionId
      ensures |Pending(kept, c)| <= MAX_PENDING
    {
      SubsetCount(Pending(kept, c), Pending(deliveries, c));
    }
  }

  lemma AnswerKeepsLeases(j: Journal, c: ConnectionId, s: Sequence, d: Delivery)
    requires LeasesSound(j) && s in j.deliveries && j.deliveries[s].connection == c
    requires d.connection == c && d.response.Some?
    ensures LeasesSound(j.(deliveries := Retained(j.deliveries[s := d]), leases := j.leases - {(c, s)}))
  {
  }

  /** Storing an answer, dropping what retention drops, and releasing the lease. */
  lemma AnswerKeepsInv(j: Journal, c: ConnectionId, s: Sequence, response: Response)
    requires Inv(j) && s in j.deliveries && j.deliveries[s].connection == c && j.deliveries[s].attempt >= 1
    ensures Inv(j.(deliveries := Retained(j.deliveries[s := j.deliveries[s].(response := Some(response))]),
                   leases := j.leases - {(c, s)}))
  {
    var d := j.deliveries[s].(response := Some(response));
    var t := j.(deliveries := Retained(j.deliveries[s := d]), leases := j.leases - {(c, s)});
    AnswerKeepsQueues(j.deliveries, s, d);
    AnswerKeepsLeases(j, c, s, d);
    forall u | u in t.deliveries
      ensures DeliverySound(t, u)
    {
      assert DeliverySound(j, u);
    }
  }

  lemma RespondKeepsInv(
      j: Journal, c: ConnectionId, token: Token, event: EventId, matches: bool, response: Response, known: set<Camera>,
      now: int)
    requires Inv(j)
    ensures var r := Respond(j, c, token, event, matches, response, known, now); r.Ok? ==> Inv(r.value.journal)
  {
    if Respond(j, c, token, event, matches, response, known, now).Ok? {
      AnswerKeepsInv(j, c, Find(j.deliveries, c, event, j.nextDelivery).value, response);
    }
  }

  lemma IngestKeepsReceived(
      j: Journal, c: ConnectionId, token: Token, clockAhead: bool, event: Received, known: set<Camera>, now: int)
    requires ReceivedSound(j) && Ingest(j, c, token, clockAhead, event, known, now).Ok?
    ensures ReceivedSound(Ingest(j, c, token, clockAhead, event, known, now).value.0)
  {
    NewestCount(j.received[j.nextReceived := event.(connection := c)], MAX_RETAINED);
  }

  lemma IngestKeepsInv(
      j: Journal, c: ConnectionId, token: Token, clockAhead: bool, event: Received, known: set<Camera>, now: int)
    requires Inv(j)
    ensures var r := Ingest(j, c, token, clockAhead, event, known, now); r.Ok? ==> Inv(r.value.0)
  {
    var r := Ingest(j, c, token, clockAhead, event, known, now);
    if r.Ok? {
      IngestKeepsReceived(j, c, token, clockAhead, event, known, now);
      SameDeliveriesSound(j, r.value.0);
    }
  }
}
