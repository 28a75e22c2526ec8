/**
 The integration store itself: the database tables and in-memory dictionaries as fields, each
 operation as the statements that change them, proved against the journal's specification.
 */
module IntegrationStore {
  import opened Prelude
  import opened RetainedTable
  import opened PersonEvents
  import opened DeliveryJournal
  import opened JournalInvariant

  /** What was done so far, followed by what is left to do. */
  function After(log: seq<Happening>, rest: Effect): Effect {
    Effect(rest.journal, log + rest.log)
  }

  lemma PullOneMore(
      j: Journal, c: ConnectionId, rows: seq<Sequence>, limit: nat, known: set<Camera>, now: int, log: seq<Happening>)
    requires c in j.connections && rows != [] && limit > 0
    requires forall s | s in rows :: s in j.deliveries
    ensures After(log, PullRows(j, c, rows, limit, known, now))
            == if Ready(j, c, rows[0], known, now) then
                 var one := HandOut(j, c, rows[0], now);
                 After(log + one.log, PullRows(one.journal, c, rows[1..], limit - 1, known, now))
               else After(log, PullRows(j, c, rows[1..], limit, known, now))
  {
    if Ready(j, c, rows[0], known, now) {
      var one := HandOut(j, c, rows[0], now);
      var rest := PullRows(one.journal, c, rows[1..], limit - 1, known, now);
      assert log + (one.log + rest.log) == (log + one.log) + rest.log;
    }
  }

  lemma PullNoMore(j: Journal, c: ConnectionId, rows: seq<Sequence>, limit: nat, known: set<Camera>, now: int)
    requires c in j.connections && forall s | s in rows :: s in j.deliveries
    requires rows == [] || limit == 0
    ensures PullRows(j, c, rows, limit, known, now) == Effect(j, [])
  {
  }

  lemma ScanNoMore(
      j: Journal, c: ConnectionId, ids: seq<EventId>, events: map<EventId, PersonEvent>, known: set<Camera>)
    requires c in j.connections && forall id | id in ids :: id in events
    requires ids != [] ==> Eligible(j, c, events[ids[0]].camera, known) && |Pending(j.deliveries, c)| >= MAX_PENDING
    ensures ScanBatch(j, c, ids, events, known) == Effect(j, [])
  {
  }

  lemma ScanOneMore(
      j: Journal, c: ConnectionId, ids: seq<EventId>, events: map<EventId, PersonEvent>, known: set<Camera>,
      log: seq<Happening>)
    requires c in j.connections && ids != [] && forall id | id in ids :: id in events
    requires !(Eligible(j, c, events[ids[0]].camera, known) && |Pending(j.deliveries, c)| >= MAX_PENDING)
    ensures var one := ScanOne(j, c, ids[0], events[ids[0]].camera, known);
            After(log, ScanBatch(j, c, ids, events, known))
            == After(log + one.log, ScanBatch(one.journal, c, ids[1..], events, known))
  {
    var one := ScanOne(j, c, ids[0], events[ids[0]].camera, known);
    var rest := ScanBatch(one.journal, c, ids[1..], events, known);
    assert log + (one.log + rest.log) == (log + one.log) + rest.log;
  }

  lemma CaptureOneMore(j: Journal, order: seq<ConnectionId>, source: Source, known: set<Camera>, log: seq<Happening>)
    requires order != []
    ensures var one := CaptureFor(j, order[0], source, known);
            After(log, Capture(j, order, source, known))
            == After(log + one.log, Capture(one.journal, order[1..], source, known))
  {
    var one := CaptureFor(j, order[0], source, known);
    var rest := Capture(one.journal, order[1..], source, known);
    assert log + (one.log + rest.log) == (log + one.log) + rest.log;
  }

  /** Discarding rows one by one: after the rows below `i` were looked at, this is what is left. */
  ghost predicate DiscardedBelow(
      before: map<Sequence, Delivery>, now: map<Sequence, Delivery>, pending: seq<Sequence>, i: nat, grants: set<Camera>)
    requires i <= |pending|
  {
    && (forall s | s in now :: s in before && now[s] == before[s])
    && (forall s | s in before && s !in now :: s in pending[..i] && before[s].camera !in grants)
    && (forall k | 0 <= k < i :: pending[k] in before && (pending[k] in now <==> before[pending[k]].camera in grants))
  }

  lemma DiscardOne(
      before: map<Sequence, Delivery>, now: map<Sequence, Delivery>, pending: seq<Sequence>, i: nat, grants: set<Camera>)
    requires i < |pending| && DiscardedBelow(before, now, pending, i, grants)
    requires forall k, l | 0 <= k < l < |pending| :: pending[k] < pending[l]
    requires pending[i] in now
    ensures DiscardedBelow(
              before, if now[pending[i]].camera in grants then now else now - {pending[i]}, pending, i + 1, grants)
  {
    assert pending[..i + 1] == pending[..i] + [pending[i]];
  }

  lemma SequencesKnown(j: Journal)
    requires Inv(j)
    ensures forall s | s in j.deliveries :: s < j.nextDelivery
  {
    forall s | s in j.deliveries
      ensures s < j.nextDelivery
    {
      SequenceKnown(j, s);
    }
  }

  lemma Discarded(before: map<Sequence, Delivery>, now: map<Sequence, Delivery>, c: ConnectionId, pending: seq<Sequence>,
                  grants: set<Camera>)
    requires forall s: Sequence :: s in pending <==> PendingFor(before, c, s)
    requires DiscardedBelow(before, now, pending, |pending|, grants)
    ensures now == StillGranted(before, c, grants)
  {
    assert pending[..|pending|] == pending;
    forall s | s in before
      ensures s in now <==> s in StillGranted(before, c, grants)
    {
      if s in pending {
        var k :| 0 <= k < |pending| && pending[k] == s;
      }
    }
  }

  /** The unanswered rows of one connection, in sequence order. */
  function PendingRows(deliveries: map<Sequence, Delivery>, c: ConnectionId, past: Sequence): (rows: seq<Sequence>)
    ensures forall s: Sequence :: s in rows <==> s < past && PendingFor(deliveries, c, s)
    ensures forall i, k :: 0 <= i < k < |rows| ==> rows[i] < rows[k]
    ensures forall i :: 0 <= i < |rows| ==> rows[i] < past
  {
    if past == 0 then []
    else if PendingFor(deliveries, c, past - 1) then PendingRows(deliveries, c, past - 1) + [past - 1]
    else PendingRows(deliveries, c, past - 1)
  }

  /** An operation did exactly what the journal's specification says, or refused and changed nothing. */
  ghost predicate Does(
      before: Journal, after: Journal, r: Result<seq<Happening>, JournalError>, spec: Result<Effect, JournalError>)
  {
    match spec
    case Ok(e) => r == Ok(e.log) && after == e.journal
    case Err(error) => r == Err(error) && after == before
  }

  class OperatorIntegrationStore {
    var connections: map<ConnectionId, Connection>
    var deliveries: map<Sequence, Delivery>
    var nextDelivery: Sequence
    var received: map<Sequence, Received>
    var nextReceived: Sequence
    var handshakes: map<ConnectionId, int>
    var leases: map<LeaseKey, int>

    constructor ()
      ensures Inv(State())
    {
      connections, deliveries, nextDelivery := map[], map[], 0;
      received, nextReceived := map[], 0;
      handshakes, leases := map[], map[];
    }

    function State(): Journal
      reads this
    {
      Journal(connections, deliveries, nextDelivery, received, nextReceived, handshakes, leases)
    }

    method Create(c: ConnectionId, kind: Kind, token: Token, enabled: bool, grants: set<Camera>)
      returns (r: Result<seq<Happening>, JournalError>)
      requires Inv(State()) && c !in connections
      modifies this
      ensures Does(old(State()), State(), r, DeliveryJournal.Create(old(State()), c, kind, token, enabled, grants))
      ensures Inv(State())
    {
      hide Inv;
      CreateKeepsInv(State(), c, kind, token, enabled, grants);
      if enabled && grants == {} {
        return Err(ScopeRequired);
      }
      if |connections| >= MAX_CONNECTIONS {
        return Err(Capacity);
      }
      connections := connections[c := Connection(kind, token, enabled, grants, 1, 0)];
      return Ok([Created(c)]);
    }

    method Update(c: ConnectionId, changes: Changes) returns (r: Result<seq<Happening>, JournalError>)
      requires Inv(State())
      modifies this`connections, this`deliveries, this`handshakes, this`leases
      ensures Does(old(State()), State(), r, DeliveryJournal.Update(old(State()), c, changes))
      ensures Inv(State())
    {
      hide Inv, AsksNothing, Edited, StillGranted, LeasesWithout;
      UpdateKeepsInv(State(), c, changes);
      SequencesKnown(State());
      if AsksNothing(changes) {
        return Err(Invalid);
      }
      if c !in connections {
        return Err(NotFound);
      }
      var row := Edited(connections[c], changes);
      if row.enabled && row.grants == {} {
        return Err(ScopeRequired);
      }
      Replace(c, row);
      return Ok([Updated(c)]);
    }

    /** The transaction of an update: the row, the queue it leaves, and the leases and handshake it voids. */
    method Replace(c: ConnectionId, row: Connection)
      requires forall s | s in deliveries :: s < nextDelivery
      modifies this`connections, this`deliveries, this`handshakes, this`leases
      ensures connections == old(connections)[c := row] && deliveries == StillGranted(old(deliveries), c, row.grants)
      ensures handshakes == old(handshakes) - {c} && leases == LeasesWithout(old(leases), c)
    {
      connections := connections[c := row];
      DiscardUngranted(c, row.grants);
      handshakes := handshakes - {c};
      leases := LeasesWithout(leases, c);
    }

    /** Discard only the unanswered records whose camera grant was removed. */
    method DiscardUngranted(c: ConnectionId, grants: set<Camera>)
      requires forall s | s in deliveries :: s < nextDelivery
      modifies this`deliveries
      ensures deliveries == StillGranted(old(deliveries), c, grants)
    {
      var pending := PendingRows(deliveries, c, nextDelivery);
      ghost var before := deliveries;
      assert forall k | 0 <= k < |pending| :: pending[k] in pending;
      var i := 0;
      while i < |pending|
        invariant 0 <= i <= |pending|
        invariant DiscardedBelow(before, deliveries, pending, i, grants)
        invariant forall k | i <= k < |pending| :: pending[k] in deliveries
      {
        hide DiscardedBelow;
        DiscardOne(before, deliveries, pending, i, grants);
        if deliveries[pending[i]].camera !in grants {
          deliveries := deliveries - {pending[i]};
        }
        i := i + 1;
      }
      Discarded(before, deliveries, c, pending, grants);
    }

    method Delete(c: ConnectionId) returns (r: Result<seq<Happening>, JournalError>)
      requires Inv(State())
      modifies this
      ensures Does(old(State()), State(), r, DeliveryJournal.Delete(old(State()), c))
      ensures Inv(State())
    {
      hide Inv;
      DeleteKeepsInv(State(), c);
      if c !in connections {
        return Err(NotFound);
      }
      deliveries := DeliveriesOfOthers(deliveries, c);
      received := ReceivedOfOthers(received, c);
      connections := connections - {c};
      handshakes := handshakes - {c};
      leases := LeasesWithout(leases, c);
      return Ok([Deleted(c)]);
    }

    method Retry(c: ConnectionId) returns (r: Result<seq<Happening>, JournalError>)
      requires Inv(State())
      modifies this
      ensures Does(old(State()), State(), r, DeliveryJournal.Retry(old(State()), c))
      ensures Inv(State())
    {
      hide Inv;
      RetryKeepsInv(State(), c);
      if c !in connections {
        return Err(NotFound);
      }
      deliveries := AttemptsReset(deliveries, c);
      leases := LeasesWithout(leases, c);
      handshakes := handshakes - {c};
      return Ok([Retried(c)]);
    }

    method ShakeHands(c: ConnectionId, token: Token, compatible: bool, now: int) returns (refused: Option<JournalError>)
      requires Inv(State())
      modifies this`handshakes
      ensures (State(), refused) == DeliveryJournal.ShakeHands(old(State()), c, token, compatible, now)
      ensures Inv(State())
    {
      hide Inv;
      HandshakeKeepsInv(State(), c, token, compatible, now);
      if c !in connections || !connections[c].enabled || connections[c].token != token {
        return Some(Unauthorized);
      }
      if !compatible {
        handshakes := handshakes - {c};
        return Some(Incompatible);
      }
      handshakes := handshakes[c := now + HANDSHAKE_SECONDS];
      return None;
    }

    /** Closing the store and opening it again: the tables stay, the dictionaries do not. */
    method Reopen()
      requires Inv(State())
      modifies this`handshakes, this`leases
      ensures State() == DeliveryJournal.Restart(old(State())).journal
      ensures Inv(State())
    {
      hide Inv;
      RestartKeepsInv(State());
      handshakes, leases := map[], map[];
    }

    /** `capture_person_events`, over the connections in the order the database lists them. */
    method CapturePersonEvents(order: seq<ConnectionId>, source: Source, known: set<Camera>)
      returns (log: seq<Happening>)
      requires Inv(State())
      modifies this`connections, this`deliveries, this`nextDelivery
      ensures Effect(State(), log) == Capture(old(State()), order, source, known)
      ensures Inv(State())
    {
      hide Inv;
      CaptureKeepsInv(State(), order, source, known);
      ghost var whole := Capture(State(), order, source, known);
      log := [];
      var i := 0;
      assert order[0..] == order;
      while i < |order|
        invariant 0 <= i <= |order|
        invariant whole == After(log, Capture(State(), order[i..], source, known))
      {
        assert order[i..][1..] == order[i + 1..];
        CaptureOneMore(State(), order[i..], source, known, log);
        var more := CaptureConnection(order[i], source, known);
        log := log + more;
        i := i + 1;
      }
    }

    /** One connection's turn: it ends before the first eligible event that finds the queue full. */
    method CaptureConnection(c: ConnectionId, source: Source, known: set<Camera>) returns (log: seq<Happening>)
      modifies this`connections, this`deliveries, this`nextDelivery
      ensures Effect(State(), log) == CaptureFor(old(State()), c, source, known)
    {
      hide ScanBatch, ScanOne, Pending, FindRow;
      log := [];
      if c !in connections || connections[c].kind != Neural || !connections[c].enabled {
        return;
      }
      var ids := BatchFor(State(), c, source);
      ghost var whole := ScanBatch(State(), c, ids, source.events, known);
      var i := 0;
      assert ids[0..] == ids;
      while i < |ids|
        invariant 0 <= i <= |ids|
        invariant c in connections
        invariant whole == After(log, ScanBatch(State(), c, ids[i..], source.events, known))
      {
        var camera := source.events[ids[i]].camera;
        assert ids[i..][0] == ids[i] && ids[i..][1..] == ids[i + 1..];
        if camera in connections[c].grants && camera in known && |Pending(deliveries, c)| >= MAX_PENDING {
          ScanNoMore(State(), c, ids[i..], source.events, known);
          return;
        }
        ScanOneMore(State(), c, ids[i..], source.events, known, log);
        var entry := ScanEvent(c, ids[i], camera, known);
        log := log + [entry];
        i := i + 1;
      }
      ScanNoMore(State(), c, ids[i..], source.events, known);
    }

    /** One event: insert it unless it is out of scope or already there, and move the cursor past it. */
    method ScanEvent(c: ConnectionId, event: EventId, camera: Camera, known: set<Camera>) returns (entry: Happening)
      requires c in connections
      modifies this`connections, this`deliveries, this`nextDelivery
      ensures Effect(State(), [entry]) == ScanOne(old(State()), c, event, camera, known) && c in connections
    {
      var eligible := camera in connections[c].grants && camera in known;
      var enqueued := None;
      if eligible && Find(deliveries, c, event, nextDelivery).None? {
        deliveries := deliveries[nextDelivery := Delivery(c, event, camera, 0, None, false)];
        enqueued := Some(nextDelivery);
        nextDelivery := nextDelivery + 1;
      }
      connections := connections[c := connections[c].(cursor := event)];
      entry := Scanned(c, event, eligible, enqueued);
    }

    method Pull(c: ConnectionId, token: Token, limit: int, known: set<Camera>, now: int)
      returns (r: Result<seq<Happening>, JournalError>)
      requires Inv(State())
      modifies this`deliveries, this`leases
      ensures Does(old(State()), State(), r, DeliveryJournal.Pull(old(State()), c, token, limit, known, now))
      ensures Inv(State())
    {
      hide Inv;
      PullKeepsInv(State(), c, token, limit, known, now);
      if !(1 <= limit <= 20) {
        return Err(Invalid);
      }
      var refused := Machine(State(), c, token, Neural, now);
      if refused.Some? {
        return Err(refused.value);
      }
      var rows := Deliverable(deliveries, c, 0, nextDelivery, SCAN);
      var result := HandOutReady(c, rows, limit, known, now);
      return Ok(result);
    }

    /** The loop over the fetched rows; a row under lease or out of scope is passed over. */
    method HandOutReady(c: ConnectionId, rows: seq<Sequence>, limit: nat, known: set<Camera>, now: int)
      returns (result: seq<Happening>)
      requires c in connections && limit > 0 && forall s | s in rows :: s in deliveries
      modifies this`deliveries, this`leases
      ensures Effect(State(), result) == PullRows(old(State()), c, rows, limit, known, now)
    {
      hide PullRows;
      ghost var whole := PullRows(State(), c, rows, limit, known, now);
      result := [];
      var i := 0;
      assert rows[0..] == rows;
      while i < |rows| && |result| < limit
        invariant 0 <= i <= |rows| && |result| <= limit
        invariant forall k | 0 <= k < |rows| :: rows[k] in deliveries
        invariant whole == After(result, PullRows(State(), c, rows[i..], limit - |result|, known, now))
      {
        var s := rows[i];
        assert rows[i..][0] == s && rows[i..][1..] == rows[i + 1..];
        PullOneMore(State(), c, rows[i..], limit - |result|, known, now, result);
        i := i + 1;
        if Lease(leases, (c, s)) > now || deliveries[s].camera !in connections[c].grants
           || deliveries[s].camera !in known {
          continue;
        }
        var attempt := deliveries[s].attempt + 1;
        result := result + [HandedOut(c, s, attempt, deliveries[s].sent, now)];
        deliveries := deliveries[s := deliveries[s].(attempt := attempt, sent := true)];
        leases := leases[(c, s) := now + Backoff(attempt)];
      }
      PullNoMore(State(), c, rows[i..], limit - |result|, known, now);
    }

    method Respond(
        c: ConnectionId, token: Token, event: EventId, matches: bool, response: Response, known: set<Camera>, now: int)
      returns (r: Result<seq<Happening>, JournalError>)
      requires Inv(State())
      modifies this`deliveries, this`leases
      ensures Does(old(State()), State(), r, DeliveryJournal.Respond(old(State()), c, token, event, matches, response, known, now))
      ensures Inv(State())
    {
      hide Inv;
      RespondKeepsInv(State(), c, token, event, matches, response, known, now);
      var refused := Machine(State(), c, token, Neural, now);
      if refused.Some? {
        return Err(refused.value);
      }
      var row := Find(deliveries, c, event, nextDelivery);
      if row.None? || deliveries[row.value].attempt < 1 {
        return Err(Mismatch);
      }
      var s := row.value;
      var answered := deliveries[s].response;
      if deliveries[s].camera !in connections[c].grants || deliveries[s].camera !in known {
        return Err(CameraForbidden);
      }
      if !matches {
        return Err(Mismatch);
      }
      if answered.Some? && answered.value != response {
        return Err(Conflict);
      }
      deliveries := deliveries[s := deliveries[s].(response := Some(response))];
      deliveries := Retained(deliveries);
      leases := leases - {(c, s)};
      return Ok([Accepted(c, s, response, answered.Some?)]);
    }

    method Ingest(c: ConnectionId, token: Token, clockAhead: bool, event: Received, known: set<Camera>, now: int)
      returns (r: Result<bool, JournalError>)
      requires Inv(State())
      modifies this`received, this`nextReceived
      ensures match DeliveryJournal.Ingest(old(State()), c, token, clockAhead, event, known, now)
              case Ok(done) => r == Ok(done.1) && State() == done.0
              case Err(error) => r == Err(error) && State() == old(State())
      ensures Inv(State())
    {
      hide Inv;
      IngestKeepsInv(State(), c, token, clockAhead, event, known, now);
      var refused := Machine(State(), c, token, Analytic, now);
      if refused.Some? {
        return Err(refused.value);
      }
      if clockAhead {
        return Err(ClockAhead);
      }
      if event.camera !in connections[c].grants || event.camera !in known {
        return Err(CameraForbidden);
      }
      var body := event.(connection := c);
      var existing := FindReceived(received, c, event.event, nextReceived);
      if existing.Some? {
        if received[existing.value] != body {
          return Err(Conflict);
        }
        return Ok(true);
      }
      received := Newest(received[nextReceived := body], MAX_RETAINED);
      nextReceived := nextReceived + 1;
      return Ok(false);
    }
  }
}
