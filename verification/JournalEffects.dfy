/**
 What each operation of the integration journal leaves behind, stated about rows, leases and
 handshakes alone: who is refused, what changes, and that nothing else does.
 */
module JournalEffects {
  import opened Prelude
  import opened RetainedTable
  import opened PersonEvents
  import opened DeliveryJournal
  import opened JournalInvariant
  import opened JournalForwarding
  import opened JournalAnswers
  import opened JournalTheorems

  function Above(keys: set<nat>, key: nat): set<nat> {
    set other | other in keys && other > key
  }

  // ---------------------------------------------------------------- who is let in

  /** A machine operation is admitted for the connection's own token and kind, while enabled and shaken hands with. */
  lemma MachineExact(j: Journal, c: ConnectionId, token: Token, kind: Kind, now: int)
    ensures Machine(j, c, token, kind, now)
         == if c in j.connections && j.connections[c].enabled && j.connections[c].token == token
               && j.connections[c].kind == kind
            then if (if c in j.handshakes then j.handshakes[c] else 0) > now then None else Some(HandshakeRequired)
            else Some(Unauthorized)
  {
  }

  // ---------------------------------------------------------------- administration

  lemma CreateExact(j: Journal, c: ConnectionId, kind: Kind, token: Token, enabled: bool, grants: set<Camera>)
    requires c !in j.connections
    ensures var r := Create(j, c, kind, token, enabled, grants);
            if enabled && grants == {} then r == Err(ScopeRequired)
            else if |j.connections| >= 16 then r == Err(Capacity)
            else
              && r.Ok? && r.value.log == [Created(c)]
              && var t := r.value.journal;
              && t == j.(connections := t.connections)
              && (forall b :: b in t.connections <==> b == c || b in j.connections)
              && (forall b | b in t.connections ::
                    t.connections[b] == if b == c then Connection(kind, token, enabled, grants, 1, 0) else j.connections[b])
  {
  }

  /**
   An update replaces exactly what it names, starts a new generation, discards exactly the unanswered
   deliveries whose camera is granted no more, and voids the connection's handshake and leases.
   */
  lemma UpdateExact(j: Journal, c: ConnectionId, changes: Changes)
    ensures var r := Update(j, c, changes);
            if !changes.labels && changes.token.None? && changes.enabled.None? && changes.grants.None? then
              r == Err(Invalid)
            else if c !in j.connections then r == Err(NotFound)
            else
              var row := j.connections[c];
              var enabled := if changes.enabled.Some? then changes.enabled.value else row.enabled;
              var grants := if changes.grants.Some? then changes.grants.value else row.grants;
              if enabled && grants == {} then r == Err(ScopeRequired)
              else
                && r.Ok? && r.value.log == [Updated(c)]
                && var t := r.value.journal;
                && t == j.(connections := t.connections, deliveries := t.deliveries, handshakes := t.handshakes,
                           leases := t.leases)
                && t.connections
                   == j.connections[c := Connection(row.kind,
                                                    if changes.token.Some? then changes.token.value else row.token,
                                                    enabled, grants, row.generation + 1, row.cursor)]
                && (forall s :: s in t.deliveries <==>
                      s in j.deliveries
                      && !(j.deliveries[s].connection == c && j.deliveries[s].response.None?
                           && j.deliveries[s].camera !in grants))
                && (forall s | s in t.deliveries :: t.deliveries[s] == j.deliveries[s])
                && (forall b :: b in t.handshakes <==> b in j.handshakes && b != c)
                && (forall b | b in t.handshakes :: t.handshakes[b] == j.handshakes[b])
                && (forall key :: key in t.leases <==> key in j.leases && key.0 != c)
                && (forall key | key in t.leases :: t.leases[key] == j.leases[key])
  {
  }

  /** A new token replaces the old one: nobody who presents any other is admitted or can shake hands. */
  lemma NewTokenReplaces(j: Journal, c: ConnectionId, changes: Changes, other: Token, kind: Kind, compatible: bool, now: int)
    requires changes.token.Some? && other != changes.token.value && Update(j, c, changes).Ok?
    ensures var t := Update(j, c, changes).value.journal;
            && Machine(t, c, other, kind, now) == Some(Unauthorized)
            && ShakeHands(t, c, other, compatible, now) == (t, Some(Unauthorized))
  {
    hide StillGranted, LeasesWithout;
  }

  lemma DeleteExact(j: Journal, c: ConnectionId)
    ensures var r := Delete(j, c);
            if c !in j.connections then r == Err(NotFound)
            else
              && r.Ok? && r.value.log == [Deleted(c)]
              && var t := r.value.journal;
              && t == j.(connections := t.connections, deliveries := t.deliveries, received := t.received,
                         handshakes := t.handshakes, leases := t.leases)
              && (forall b :: b in t.connections <==> b in j.connections && b != c)
              && (forall b | b in t.connections :: t.connections[b] == j.connections[b])
              && (forall s :: s in t.deliveries <==> s in j.deliveries && j.deliveries[s].connection != c)
              && (forall s | s in t.deliveries :: t.deliveries[s] == j.deliveries[s])
              && (forall s :: s in t.received <==> s in j.received && j.received[s].connection != c)
              && (forall s | s in t.received :: t.received[s] == j.received[s])
              && (forall b :: b in t.handshakes <==> b in j.handshakes && b != c)
              && (forall b | b in t.handshakes :: t.handshakes[b] == j.handshakes[b])
              && (forall key :: key in t.leases <==> key in j.leases && key.0 != c)
              && (forall key | key in t.leases :: t.leases[key] == j.leases[key])
  {
  }

  lemma RetryExact(j: Journal, c: ConnectionId)
    ensures var r := Retry(j, c);
            if c !in j.connections then r == Err(NotFound)
            else
              && r.Ok? && r.value.log == [Retried(c)]
              && var t := r.value.journal;
              && t == j.(deliveries := t.deliveries, handshakes := t.handshakes, leases := t.leases)
              && t.deliveries.Keys == j.deliveries.Keys
              && (forall s | s in j.deliveries ::
                    t.deliveries[s]
                    == if j.deliveries[s].connection == c && j.deliveries[s].response.None?
                       then j.deliveries[s].(attempt := 0) else j.deliveries[s])
              && (forall b :: b in t.handshakes <==> b in j.handshakes && b != c)
              && (forall b | b in t.handshakes :: t.handshakes[b] == j.handshakes[b])
              && (forall key :: key in t.leases <==> key in j.leases && key.0 != c)
              && (forall key | key in t.leases :: t.leases[key] == j.leases[key])
  {
  }

  /** Only the connection's own handshake is touched, and only by whoever holds its token while it is enabled. */
  lemma ShakeHandsExact(j: Journal, c: ConnectionId, token: Token, compatible: bool, now: int)
    ensures var (t, refused) := ShakeHands(j, c, token, compatible, now);
            if c !in j.connections || !j.connections[c].enabled || j.connections[c].token != token then
              t == j && refused == Some(Unauthorized)
            else
              && t == j.(handshakes := t.handshakes)
              && refused == (if compatible then None else Some(Incompatible))
              && (c in t.handshakes <==> compatible) && (compatible ==> t.handshakes[c] == now + 60)
              && (forall b | b != c :: b in t.handshakes <==> b in j.handshakes)
              && (forall b | b in t.handshakes && b != c :: t.handshakes[b] == j.handshakes[b])
  {
  }

  lemma RestartExact(j: Journal)
    ensures Restart(j) == Effect(j.(handshakes := map[], leases := map[]), [Restarted])
  {
  }

  // ---------------------------------------------------------------- answers

  /**
   An accepted answer is stored in its row, and the row's lease is gone. Of all rows, the unanswered and
   those with fewer than 10,000 newer ones stay, unchanged.
   */
  lemma AnswerExact(
      j: Journal, c: ConnectionId, token: Token, s: Sequence, response: Response, known: set<Camera>, now: int)
    requires Inv(j) && s in j.deliveries && j.deliveries[s].connection == c && j.deliveries[s].attempt >= 1
    requires Machine(j, c, token, Neural, now) == None && c in j.connections
    requires j.deliveries[s].camera in j.connections[c].grants && j.deliveries[s].camera in known
    requires j.deliveries[s].response.None? || j.deliveries[s].response == Some(response)
    ensures var r := Respond(j, c, token, j.deliveries[s].event, true, response, known, now);
            && r.Ok? && r.value.log == [Accepted(c, s, response, j.deliveries[s].response.Some?)]
            && var t := r.value.journal;
            && t == j.(deliveries := t.deliveries, leases := t.leases)
            && (forall u :: u in t.deliveries <==>
                  u in j.deliveries
                  && ((u != s && j.deliveries[u].response.None?) || |Above(j.deliveries.Keys, u)| < 10_000))
            && (forall u | u in t.deliveries ::
                  t.deliveries[u] == if u == s then j.deliveries[s].(response := Some(response)) else j.deliveries[u])
            && (forall key :: key in t.leases <==> key in j.leases && key != (c, s))
            && (forall key | key in t.leases :: t.leases[key] == j.leases[key])
  {
    hide Inv, Respond, Retained, Machine, Above;
    AnswerShape(j, c, token, s, response, known, now);
    var answered := j.deliveries[s := j.deliveries[s].(response := Some(response))];
    assert answered.Keys == j.deliveries.Keys;
    RetainedExact(answered);
  }

  lemma AnswerShape(
      j: Journal, c: ConnectionId, token: Token, s: Sequence, response: Response, known: set<Camera>, now: int)
    requires Inv(j) && s in j.deliveries && j.deliveries[s].connection == c && j.deliveries[s].attempt >= 1
    requires Machine(j, c, token, Neural, now) == None && c in j.connections
    requires j.deliveries[s].camera in j.connections[c].grants && j.deliveries[s].camera in known
    requires j.deliveries[s].response.None? || j.deliveries[s].response == Some(response)
    ensures Respond(j, c, token, j.deliveries[s].event, true, response, known, now)
         == Ok(Effect(
                 j.(deliveries := Retained(j.deliveries[s := j.deliveries[s].(response := Some(response))]),
                    leases := j.leases - {(c, s)}),
                 [Accepted(c, s, response, j.deliveries[s].response.Some?)]))
  {
    hide Inv, FindRow, InEventOrder, Machine, Retained;
    InvIsOrdered(j);
    SequenceKnown(j, s);
    FindUnique(j.deliveries, j.nextDelivery, s);
  }

  lemma RetainedExact(deliveries: map<Sequence, Delivery>)
    ensures var kept := Retained(deliveries);
            && (forall u :: u in kept <==>
                  u in deliveries && (deliveries[u].response.None? || |Above(deliveries.Keys, u)| < 10_000))
            && (forall u | u in kept :: kept[u] == deliveries[u])
  {
    assert forall u :: Newer(deliveries.Keys, u) == Above(deliveries.Keys, u);
  }

  // ---------------------------------------------------------------- inbound events

  /**
   Every way an inbound event can be taken, in the order of the checks: admission, the provider's clock,
   the camera, and the row already there. A new event is stored under the next sequence, and of all
   events exactly those with fewer than 10,000 newer ones stay.
   */
  lemma IngestExact(
      j: Journal, c: ConnectionId, token: Token, clockAhead: bool, event: Received, known: set<Camera>, now: int)
    requires Inv(j)
    ensures var r := Ingest(j, c, token, clockAhead, event, known, now);
            var body := event.(connection := c);
            if Machine(j, c, token, Analytic, now).Some? then r == Err(Machine(j, c, token, Analytic, now).value)
            else if clockAhead then r == Err(ClockAhead)
            else if event.camera !in j.connections[c].grants || event.camera !in known then r == Err(CameraForbidden)
            else if exists s :: s in j.received && j.received[s].connection == c && j.received[s].event == event.event
            then r == if exists s :: s in j.received && j.received[s] == body then Ok((j, true)) else Err(Conflict)
            else
              && r.Ok? && !r.value.1
              && var t := r.value.0;
              && t == j.(received := t.received, nextReceived := j.nextReceived + 1)
              && (forall s :: s in t.received <==>
                    s == j.nextReceived
                    || (s in j.received && |Above(j.received.Keys, s)| + 1 < 10_000))
              && (forall s | s in t.received ::
                    t.received[s] == if s == j.nextReceived then body else j.received[s])
  {
    hide Inv, Ingest, Machine, Above, Newest;
    var body := event.(connection := c);
    IngestRefused(j, c, token, clockAhead, event, known, now);
    if Machine(j, c, token, Analytic, now).None? && !clockAhead && event.camera in j.connections[c].grants
       && event.camera in known {
      if s :| s in j.received && j.received[s].connection == c && j.received[s].event == event.event {
        IngestAgain(j, c, token, event, known, now, s);
      } else {
        IngestNew(j, c, token, event, known, now);
        NewestExact(j.received, j.nextReceived, body);
      }
    }
  }

  lemma IngestRefused(
      j: Journal, c: ConnectionId, token: Token, clockAhead: bool, event: Received, known: set<Camera>, now: int)
    ensures var r := Ingest(j, c, token, clockAhead, event, known, now);
            if Machine(j, c, token, Analytic, now).Some? then r == Err(Machine(j, c, token, Analytic, now).value)
            else
              && c in j.connections
              && if clockAhead then r == Err(ClockAhead)
                 else if event.camera !in j.connections[c].grants || event.camera !in known then r == Err(CameraForbidden)
                 else true
  {
    hide FindRow, Newest;
  }

  lemma IngestAgain(
      j: Journal, c: ConnectionId, token: Token, event: Received, known: set<Camera>, now: int, s: Sequence)
    requires Inv(j) && Machine(j, c, token, Analytic, now) == None && c in j.connections
    requires event.camera in j.connections[c].grants && event.camera in known
    requires s in j.received && j.received[s].connection == c && j.received[s].event == event.event
    ensures var body := event.(connection := c);
            && ((exists u :: u in j.received && j.received[u] == body) <==> j.received[s] == body)
            && Ingest(j, c, token, false, event, known, now)
               == if j.received[s] == body then Ok((j, true)) else Err(Conflict)
  {
    ReceivedIsSound(j);
    hide Inv, FindRow, Machine, Newest;
    ReceivedUnique(j, s);
  }

  lemma ReceivedIsSound(j: Journal)
    requires Inv(j)
    ensures ReceivedSound(j)
  {
  }

  lemma ReceivedBelow(j: Journal)
    requires ReceivedSound(j)
    ensures forall s | s in j.received :: s < j.nextReceived
  {
  }

  lemma NoneFound(j: Journal, c: ConnectionId, event: nat)
    requires forall s | s in j.received :: !(j.received[s].connection == c && j.received[s].event == event)
    ensures FindReceived(j.received, c, event, j.nextReceived).None?
  {
  }

  lemma IngestNew(j: Journal, c: ConnectionId, token: Token, event: Received, known: set<Camera>, now: int)
    requires Inv(j) && Machine(j, c, token, Analytic, now) == None && c in j.connections
    requires event.camera in j.connections[c].grants && event.camera in known
    requires forall s | s in j.received :: !(j.received[s].connection == c && j.received[s].event == event.event)
    ensures Ingest(j, c, token, false, event, known, now)
         == Ok((j.(received := Newest(j.received[j.nextReceived := event.(connection := c)], MAX_RETAINED),
                   nextReceived := j.nextReceived + 1), false))
    ensures forall s | s in j.received :: s < j.nextReceived
  {
    hide Inv, ReceivedSound, Machine, Newest;
    ReceivedIsSound(j);
    ReceivedBelow(j);
    NoneFound(j, c, event.event);
  }

  lemma NewestExact(received: map<Sequence, Received>, next: Sequence, body: Received)
    requires forall s | s in received :: s < next
    ensures var kept := Newest(received[next := body], MAX_RETAINED);
            && (forall s :: s in kept <==> s == next || (s in received && |Above(received.Keys, s)| + 1 < 10_000))
            && (forall s | s in kept :: kept[s] == if s == next then body else received[s])
  {
    var grown := received[next := body];
    forall s | s in received
      ensures |Newer(grown.Keys, s)| == |Above(received.Keys, s)| + 1
    {
      assert Newer(grown.Keys, s) == Above(received.Keys, s) + {next};
    }
    assert Newer(grown.Keys, next) == {};
  }
}
