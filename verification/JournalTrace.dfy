/** Whole runs of the delivery journal beside its producer, and what their traces show. */
module JournalTrace {
  import opened Prelude
  import opened RetainedTable
  import opened PersonEvents
  import opened DeliveryJournal
  import opened JournalInvariant

  datatype World = World(journal: Journal, source: Source, used: set<ConnectionId>, log: seq<Happening>)

  datatype Action =
    | Creating(c: ConnectionId, kind: Kind, token: Token, enabled: bool, grants: set<Camera>)
    | Updating(c: ConnectionId, changes: Changes)
    | Deleting(c: ConnectionId)
    | Retrying(c: ConnectionId)
    | Shaking(c: ConnectionId, token: Token, compatible: bool, now: nat)
    | Restarting
    | Capturing(order: seq<ConnectionId>, known: set<Camera>)
    | Pulling(c: ConnectionId, token: Token, limit: int, known: set<Camera>, now: nat)
    | Responding(
        c: ConnectionId, token: Token, event: EventId, matches: bool, response: Response, known: set<Camera>, now: nat)
    | Ingesting(c: ConnectionId, token: Token, clockAhead: bool, received: Received, known: set<Camera>, now: nat)
    | Recording(camera: Camera, frame: Frame, emits: bool)
    | Configuring(camera: Camera, analytics: Analytics)

  function Applied(w: World, e: Effect): World {
    w.(journal := e.journal, log := w.log + e.log)
  }

  function AppliedIfOk(w: World, r: Result<Effect, JournalError>): World {
    if r.Ok? then Applied(w, r.value) else w
  }

  /** A handshake by whoever holds the token is logged, compatible or not. */
  function Shaken(w: World, c: ConnectionId, token: Token, compatible: bool, now: int): World {
    var (j, refused) := ShakeHands(w.journal, c, token, compatible, now);
    if refused == Some(Unauthorized) then w else Applied(w, Effect(j, [Shook(c, compatible, now)]))
  }

  /** One whole operation. The monotonic clock never reads below zero; connection ids are random and never repeat. */
  function Step(w: World, a: Action): World {
    match a
    case Creating(c, kind, token, enabled, grants) =>
      if c in w.used then w
      else AppliedIfOk(w, Create(w.journal, c, kind, token, enabled, grants)).(used := w.used + {c})
    case Updating(c, changes) => AppliedIfOk(w, Update(w.journal, c, changes))
    case Deleting(c) => AppliedIfOk(w, Delete(w.journal, c))
    case Retrying(c) => AppliedIfOk(w, Retry(w.journal, c))
    case Shaking(c, token, compatible, now) => Shaken(w, c, token, compatible, now)
    case Restarting => Applied(w, Restart(w.journal))
    case Capturing(order, known) => Applied(w, Capture(w.journal, order, w.source, known))
    case Pulling(c, token, limit, known, now) => AppliedIfOk(w, Pull(w.journal, c, token, limit, known, now))
    case Responding(c, token, event, matches, response, known, now) =>
      AppliedIfOk(w, Respond(w.journal, c, token, event, matches, response, known, now))
    case Ingesting(c, token, clockAhead, received, known, now) =>
      var r := Ingest(w.journal, c, token, clockAhead, received, known, now);
      if r.Ok? then Applied(w, Effect(r.value.0, [Ingested(c, received.event, r.value.1)])) else w
    case Recording(camera, frame, emits) => w.(source := Recorded(w.source, camera, frame, emits))
    case Configuring(camera, analytics) =>
      w.(source := w.source.(cameras := w.source.cameras[camera := analytics]))
  }

  const INITIAL: World := World(Journal(map[], map[], 0, map[], 0, map[], map[]), Source(map[], map[], 1), {}, [])

  function Run(actions: seq<Action>): World {
    if actions == [] then INITIAL else Step(Run(actions[..|actions| - 1]), actions[|actions| - 1])
  }

  // ---------------------------------------------------------------- what a trace says

  predicate ScanOf(h: Happening, c: ConnectionId, event: EventId) {
    h.Scanned? && h.connection == c && h.event == event
  }

  ghost predicate WasScanned(log: seq<Happening>, c: ConnectionId, event: EventId) {
    exists k :: 0 <= k < |log| && ScanOf(log[k], c, event)
  }

  predicate HandOutOf(h: Happening, s: Sequence) {
    h.HandedOut? && h.sequence == s
  }

  ghost predicate WasHandedOut(log: seq<Happening>, s: Sequence) {
    exists k :: 0 <= k < |log| && HandOutOf(log[k], s)
  }

  predicate AcceptanceOf(h: Happening, s: Sequence) {
    h.Accepted? && h.sequence == s
  }

  ghost predicate WasAccepted(log: seq<Happening>, s: Sequence) {
    exists k :: 0 <= k < |log| && AcceptanceOf(log[k], s)
  }

  /** How often `s` was handed out since the last operator retry of its connection. */
  function HandOuts(log: seq<Happening>, c: ConnectionId, s: Sequence): nat {
    if log == [] then 0
    else
      var last, earlier := log[|log| - 1], log[..|log| - 1];
      if last == Retried(c) then 0
      else HandOuts(earlier, c, s) + if HandOutOf(last, s) then 1 else 0
  }

  /** Events that void the leases of connection `c`. */
  predicate VoidsLeases(h: Happening, c: ConnectionId) {
    h == Retried(c) || h == Updated(c) || h == Restarted
  }

  /** When the lease of the last hand-out of `s` ends, 0 if there is none in force. */
  function LeaseEnd(log: seq<Happening>, c: ConnectionId, s: Sequence): int {
    if log == [] then 0
    else
      var last, earlier := log[|log| - 1], log[..|log| - 1];
      if VoidsLeases(last, c) then 0
      else if HandOutOf(last, s) then last.at + Backoff(last.attempt)
      else LeaseEnd(earlier, c, s)
  }

  /** What each entry of a trace means against the entries before it. */
  ghost predicate EntrySound(log: seq<Happening>, k: nat)
    requires k < |log|
  {
    var before := log[..k];
    match log[k]
    case Scanned(c, event, eligible, enqueued) =>
      && (eligible <==> enqueued.Some?)
      && (forall i | 0 <= i < k && log[i].Scanned? && log[i].connection == c :: log[i].event < event)
      && (forall i | 0 <= i < k && log[i].Scanned? && log[i].enqueued.Some? && enqueued.Some? ::
            log[i].enqueued.value < enqueued.value)
    case HandedOut(c, s, attempt, replay, at) =>
      && attempt == HandOuts(before, c, s) + 1 <= MAX_ATTEMPTS
      && (replay <==> WasHandedOut(before, s))
      && at >= LeaseEnd(before, c, s)
      && !WasAccepted(before, s)
      && (forall i | 0 <= i < k && HandOutOf(log[i], s) :: log[i].connection == c)
    case Accepted(c, s, response, duplicate) =>
      && (duplicate <==> WasAccepted(before, s))
      && WasHandedOut(before, s)
      && (forall i | 0 <= i < k && AcceptanceOf(log[i], s) :: log[i].response == response)
    case _ => true
  }

  // ---------------------------------------------------------------- how the state mirrors the trace

  ghost predicate ForwardingMirrors(w: World) {
    && (forall c | c in w.journal.connections :: c in w.used && w.journal.connections[c].cursor < w.source.next)
    && (forall k | 0 <= k < |w.log| && w.log[k].Scanned? ::
          && w.log[k].connection in w.used
          && (w.log[k].connection in w.journal.connections ==>
                w.log[k].event <= w.journal.connections[w.log[k].connection].cursor)
          && (w.log[k].enqueued.Some? ==> w.log[k].enqueued.value < w.journal.nextDelivery))
    && (forall c, id | c in w.journal.connections && id in w.source.events && id <= w.journal.connections[c].cursor ::
          WasScanned(w.log, c, id))
  }

  ghost predicate RowMirrors(w: World, s: Sequence)
    requires s in w.journal.deliveries
  {
    var d := w.journal.deliveries[s];
    && (d.sent <==> WasHandedOut(w.log, s))
    && (d.response.Some? <==> WasAccepted(w.log, s))
    && (d.response.None? ==>
          && d.attempt == HandOuts(w.log, d.connection, s)
          && Lease(w.journal.leases, (d.connection, s)) == LeaseEnd(w.log, d.connection, s))
    && (forall k | 0 <= k < |w.log| && HandOutOf(w.log[k], s) :: w.log[k].connection == d.connection)
    && (forall k | 0 <= k < |w.log| && AcceptanceOf(w.log[k], s) :: d.response == Some(w.log[k].response))
  }

  ghost predicate SequencesUsed(w: World) {
    forall k | 0 <= k < |w.log| && (w.log[k].HandedOut? || w.log[k].Accepted?) ::
      w.log[k].sequence < w.journal.nextDelivery
  }

  ghost predicate RowsMirror(w: World) {
    SequencesUsed(w) && forall s | s in w.journal.deliveries :: RowMirrors(w, s)
  }

  ghost predicate LogSound(log: seq<Happening>) {
    forall k | 0 <= k < |log| :: EntrySound(log, k)
  }

  ghost predicate TraceInv(w: World) {
    Inv(w.journal) && SourceSound(w.source) && ForwardingMirrors(w) && RowsMirror(w) && LogSound(w.log)
  }

  lemma LogSoundSnoc(log: seq<Happening>, h: Happening)
    requires LogSound(log) && EntrySound(log + [h], |log|)
    ensures LogSound(log + [h])
  {
    var all := log + [h];
    forall k | 0 <= k < |all|
      ensures EntrySound(all, k)
    {
      if k < |log| {
        assert EntrySound(log, k);
        assert all[..k] == log[..k];
      }
    }
  }

  lemma SnocFacts(log: seq<Happening>, h: Happening, s: Sequence)
    ensures WasHandedOut(log + [h], s) <==> WasHandedOut(log, s) || HandOutOf(h, s)
    ensures WasAccepted(log + [h], s) <==> WasAccepted(log, s) || AcceptanceOf(h, s)
    ensures forall c :: HandOuts(log + [h], c, s) ==
                        if h == Retried(c) then 0 else HandOuts(log, c, s) + if HandOutOf(h, s) then 1 else 0
    ensures forall c :: LeaseEnd(log + [h], c, s) ==
                        if VoidsLeases(h, c) then 0
                        else if HandOutOf(h, s) then h.at + Backoff(h.attempt) else LeaseEnd(log, c, s)
  {
    var all := log + [h];
    assert all[..|all| - 1] == log;
    assert all[|log|] == h;
    if WasHandedOut(log, s) {
      var k :| 0 <= k < |log| && HandOutOf(log[k], s);
      assert HandOutOf(all[k], s);
    }
    if WasAccepted(log, s) {
      var k :| 0 <= k < |log| && AcceptanceOf(log[k], s);
      assert AcceptanceOf(all[k], s);
    }
  }

  lemma ScanSnoc(log: seq<Happening>, h: Happening, c: ConnectionId, id: EventId)
    ensures WasScanned(log + [h], c, id) <==> WasScanned(log, c, id) || ScanOf(h, c, id)
  {
    var all := log + [h];
    assert all[|log|] == h;
    if WasScanned(log, c, id) {
      var k :| 0 <= k < |log| && ScanOf(log[k], c, id);
      assert ScanOf(all[k], c, id);
    }
  }

  // ---------------------------------------------------------------- rows and hand-outs, step by step

  /** A step that answers and hands out nothing: rows may go, and leases and attempts move as the entry says. */
  ghost predicate RowsOnlyReset(w: World, w': World, h: Happening) {
    && w'.log == w.log + [h] && !h.HandedOut? && !h.Accepted?
    && w'.journal.nextDelivery >= w.journal.nextDelivery
    && forall s | s in w'.journal.deliveries :: RowOnlyReset(w, w', h, s)
  }

  ghost predicate RowOnlyReset(w: World, w': World, h: Happening, s: Sequence)
    requires s in w'.journal.deliveries
  {
    && s in w.journal.deliveries
    && var d, d' := w.journal.deliveries[s], w'.journal.deliveries[s];
    && (d'.connection, d'.sent, d'.response) == (d.connection, d.sent, d.response)
    && (d.response.None? ==>
          && d'.attempt == (if h == Retried(d.connection) then 0 else d.attempt)
          && Lease(w'.journal.leases, (d.connection, s))
             == if VoidsLeases(h, d.connection) then 0 else Lease(w.journal.leases, (d.connection, s)))
  }

  lemma ResetKeepsRows(w: World, w': World, h: Happening)
    requires RowsMirror(w) && RowsOnlyReset(w, w', h)
    ensures RowsMirror(w')
  {
    forall s | s in w'.journal.deliveries
      ensures RowMirrors(w', s)
    {
      assert RowOnlyReset(w, w', h, s);
      assert RowMirrors(w, s);
      SnocFacts(w.log, h, s);
    }
  }

  lemma {:induction false} NeverHandedOut(log: seq<Happening>, c: ConnectionId, s: Sequence)
    requires forall k | 0 <= k < |log| :: !HandOutOf(log[k], s)
    ensures HandOuts(log, c, s) == 0 && LeaseEnd(log, c, s) == 0
  {
    if log != [] {
      NeverHandedOut(log[..|log| - 1], c, s);
    }
  }

  /** An entry that hands out, answers and resets nothing says nothing about a row. */
  lemma UnlinkedRowKept(w: World, w': World, h: Happening, s: Sequence)
    requires s in w.journal.deliveries && s in w'.journal.deliveries && RowMirrors(w, s)
    requires w'.journal.deliveries[s] == w.journal.deliveries[s] && w'.journal.leases == w.journal.leases
    requires w'.log == w.log + [h] && h.Scanned?
    ensures RowMirrors(w', s)
  {
    SnocFacts(w.log, h, s);
  }

  /** A new row starts with no history. */
  lemma EnqueueKeepsRows(w: World, w': World, c: ConnectionId, event: EventId, camera: Camera)
    requires Inv(w.journal) && RowsMirror(w)
    requires w'.log == w.log + [Scanned(c, event, true, Some(w.journal.nextDelivery))]
    requires w'.journal.nextDelivery == w.journal.nextDelivery + 1 && w'.journal.leases == w.journal.leases
    requires w'.journal.deliveries
             == w.journal.deliveries[w.journal.nextDelivery := Delivery(c, event, camera, 0, None, false)]
    ensures RowsMirror(w')
  {
    var next, h := w.journal.nextDelivery, w'.log[|w.log|];
    forall s | s in w'.journal.deliveries
      ensures RowMirrors(w', s)
    {
      if s == next {
        SnocFacts(w.log, h, s);
        NeverHandedOut(w.log, c, s);
      } else {
        assert RowMirrors(w, s);
        UnlinkedRowKept(w, w', h, s);
      }
    }
  }

  /** A hand-out or answer of one row says nothing about any other. */
  lemma OtherRowKept(w: World, w': World, h: Happening, u: Sequence)
    requires u in w.journal.deliveries && u in w'.journal.deliveries && RowMirrors(w, u)
    requires w'.journal.deliveries[u] == w.journal.deliveries[u] && w'.log == w.log + [h]
    requires (h.HandedOut? || h.Accepted?) && h.sequence != u
    requires forall c :: Lease(w'.journal.leases, (c, u)) == Lease(w.journal.leases, (c, u))
    ensures RowMirrors(w', u)
  {
    SnocFacts(w.log, h, u);
  }

  lemma HandOutEntrySound(w: World, c: ConnectionId, s: Sequence, now: int)
    requires PendingFor(w.journal.deliveries, c, s) && RowMirrors(w, s)
    requires w.journal.deliveries[s].attempt < MAX_ATTEMPTS && Lease(w.journal.leases, (c, s)) <= now
    ensures var h := HandedOut(c, s, w.journal.deliveries[s].attempt + 1, w.journal.deliveries[s].sent, now);
            EntrySound(w.log + [h], |w.log|)
  {
    var h := HandedOut(c, s, w.journal.deliveries[s].attempt + 1, w.journal.deliveries[s].sent, now);
    assert (w.log + [h])[..|w.log|] == w.log;
  }

  lemma HandOutRow(w: World, c: ConnectionId, s: Sequence, now: int)
    requires PendingFor(w.journal.deliveries, c, s) && RowMirrors(w, s)
    ensures RowMirrors(Applied(w, HandOut(w.journal, c, s, now)), s)
  {
    var d := w.journal.deliveries[s];
    SnocFacts(w.log, HandedOut(c, s, d.attempt + 1, d.sent, now), s);
  }

  /** Handing out a ready row extends its trace by exactly the entry logged. */
  lemma HandOutKeepsRows(w: World, c: ConnectionId, s: Sequence, now: int)
    requires RowsMirror(w) && LogSound(w.log)
    requires PendingFor(w.journal.deliveries, c, s) && s < w.journal.nextDelivery
    requires w.journal.deliveries[s].attempt < MAX_ATTEMPTS && Lease(w.journal.leases, (c, s)) <= now
    ensures var w' := Applied(w, HandOut(w.journal, c, s, now));
            RowsMirror(w') && LogSound(w'.log)
  {
    var w' := Applied(w, HandOut(w.journal, c, s, now));
    var h := HandedOut(c, s, w.journal.deliveries[s].attempt + 1, w.journal.deliveries[s].sent, now);
    assert RowMirrors(w, s);
    HandOutEntrySound(w, c, s, now);
    LogSoundSnoc(w.log, h);
    forall u | u in w'.journal.deliveries
      ensures RowMirrors(w', u)
    {
      if u == s {
        HandOutRow(w, c, s, now);
      } else {
        assert RowMirrors(w, u);
        OtherRowKept(w, w', h, u);
      }
    }
  }

  lemma AcceptanceEntrySound(w: World, c: ConnectionId, s: Sequence, response: Response)
    requires s in w.journal.deliveries && RowMirrors(w, s) && w.journal.deliveries[s].sent
    requires w.journal.deliveries[s].response.Some? ==> w.journal.deliveries[s].response.value == response
    ensures var h := Accepted(c, s, response, w.journal.deliveries[s].response.Some?);
            EntrySound(w.log + [h], |w.log|)
  {
    var h := Accepted(c, s, response, w.journal.deliveries[s].response.Some?);
    assert (w.log + [h])[..|w.log|] == w.log;
  }

  lemma AnsweredRow(w: World, w': World, c: ConnectionId, s: Sequence, response: Response, duplicate: bool)
    requires s in w.journal.deliveries && RowMirrors(w, s) && w.journal.deliveries[s].connection == c
    requires w.journal.deliveries[s].response.Some? ==> w.journal.deliveries[s].response.value == response
    requires s in w'.journal.deliveries
    requires w'.journal.deliveries[s] == w.journal.deliveries[s].(response := Some(response))
    requires w'.log == w.log + [Accepted(c, s, response, duplicate)]
    ensures RowMirrors(w', s)
  {
    var h := Accepted(c, s, response, duplicate);
    SnocFacts(w.log, h, s);
    assert AcceptanceOf(h, s) && !HandOutOf(h, s);
  }

  /** Accepting a response extends the trace soundly, whatever retention then drops. */
  lemma AnswerKeepsRows(w: World, w': World, c: ConnectionId, s: Sequence, response: Response)
    requires RowsMirror(w) && LogSound(w.log)
    requires s in w.journal.deliveries && s < w.journal.nextDelivery
    requires w.journal.deliveries[s].connection == c && w.journal.deliveries[s].sent
    requires w.journal.deliveries[s].response.Some? ==> w.journal.deliveries[s].response.value == response
    requires w'.journal.nextDelivery == w.journal.nextDelivery
    requires w'.journal.deliveries
             == Retained(w.journal.deliveries[s := w.journal.deliveries[s].(response := Some(response))])
    requires w'.journal.leases == w.journal.leases - {(c, s)}
    requires w'.log == w.log + [Accepted(c, s, response, w.journal.deliveries[s].response.Some?)]
    ensures RowsMirror(w') && LogSound(w'.log)
  {
    var h := Accepted(c, s, response, w.journal.deliveries[s].response.Some?);
    assert RowMirrors(w, s);
    AcceptanceEntrySound(w, c, s, response);
    LogSoundSnoc(w.log, h);
    forall u | u in w'.journal.deliveries
      ensures RowMirrors(w', u)
    {
      assert RowMirrors(w, u);
      if u == s {
        AnsweredRow(w, w', c, s, response, h.duplicate);
      } else {
        OtherRowKept(w, w', h, u);
      }
    }
  }

  // ---------------------------------------------------------------- forwarding, step by step

  /** A step that scans nothing: connections keep their cursors, go, or come with a fresh id at cursor 0. */
  ghost predicate ScansNothing(w: World, w': World) {
    && w.log <= w'.log && (forall k | |w.log| <= k < |w'.log| :: !w'.log[k].Scanned?)
    && w'.source == w.source && w.used <= w'.used
    && w'.journal.nextDelivery >= w.journal.nextDelivery
    && forall c | c in w'.journal.connections ::
         if c in w.journal.connections then w'.journal.connections[c].cursor == w.journal.connections[c].cursor
         else w'.journal.connections[c].cursor == 0 && c !in w.used && c in w'.used
  }

  lemma WasScannedKept(log: seq<Happening>, longer: seq<Happening>, c: ConnectionId, id: EventId)
    requires log <= longer && WasScanned(log, c, id)
    ensures WasScanned(longer, c, id)
  {
    var k :| 0 <= k < |log| && ScanOf(log[k], c, id);
    assert ScanOf(longer[k], c, id);
  }

  lemma NothingScannedKeepsForwarding(w: World, w': World)
    requires ForwardingMirrors(w) && SourceSound(w.source) && ScansNothing(w, w')
    ensures ForwardingMirrors(w')
  {
    forall c, id | c in w'.journal.connections && id in w'.source.events && id <= w'.journal.connections[c].cursor
      ensures WasScanned(w'.log, c, id)
    {
      WasScannedKept(w.log, w'.log, c, id);
    }
    forall k | 0 <= k < |w'.log| && w'.log[k].Scanned?
      ensures k < |w.log| && w'.log[k] == w.log[k]
    {
    }
  }

  lemma RecordingKeepsForwarding(w: World, camera: Camera, frame: Frame, emits: bool)
    requires ForwardingMirrors(w) && SourceSound(w.source)
    ensures ForwardingMirrors(w.(source := Recorded(w.source, camera, frame, emits)))
  {
    RecordKeepsSource(w.source, camera, frame, emits);
  }

  /** `event` is the first stored event past the cursor of `c`. */
  ghost predicate NextUp(w: World, c: ConnectionId, event: EventId) {
    && c in w.journal.connections
    && event in w.source.events && w.journal.connections[c].cursor < event < w.source.next
    && forall id | id in w.source.events && w.journal.connections[c].cursor < id :: event <= id
  }

  lemma ScanEntrySound(w: World, c: ConnectionId, event: EventId, eligible: bool)
    requires ForwardingMirrors(w) && c in w.journal.connections && w.journal.connections[c].cursor < event
    ensures EntrySound(
              w.log + [Scanned(c, event, eligible, if eligible then Some(w.journal.nextDelivery) else None)], |w.log|)
  {
  }

  lemma ScanMovesCursor(w: World, w': World, c: ConnectionId, event: EventId, eligible: bool)
    requires ForwardingMirrors(w) && NextUp(w, c, event)
    requires w'.source == w.source && w'.used == w.used
    requires w'.log == w.log + [Scanned(c, event, eligible, if eligible then Some(w.journal.nextDelivery) else None)]
    requires w'.journal.connections == w.journal.connections[c := w.journal.connections[c].(cursor := event)]
    requires w'.journal.nextDelivery == w.journal.nextDelivery + if eligible then 1 else 0
    ensures ForwardingMirrors(w')
  {
    var h := w'.log[|w.log|];
    forall b, id | b in w'.journal.connections && id in w'.source.events && id <= w'.journal.connections[b].cursor
      ensures WasScanned(w'.log, b, id)
    {
      ScanSnoc(w.log, h, b, id);
    }
    forall k | 0 <= k < |w'.log| && w'.log[k].Scanned?
      ensures w'.log[k].connection in w'.used
      ensures w'.log[k].connection in w'.journal.connections ==>
                w'.log[k].event <= w'.journal.connections[w'.log[k].connection].cursor
      ensures w'.log[k].enqueued.Some? ==> w'.log[k].enqueued.value < w'.journal.nextDelivery
    {
      assert k < |w.log| ==> w'.log[k] == w.log[k];
    }
  }

  lemma ScanKeepsForwarding(w: World, c: ConnectionId, event: EventId, known: set<Camera>)
    requires Inv(w.journal) && ForwardingMirrors(w) && LogSound(w.log) && NextUp(w, c, event)
    requires Eligible(w.journal, c, w.source.events[event].camera, known) ==>
               |Pending(w.journal.deliveries, c)| < MAX_PENDING
    ensures var w' := Applied(w, ScanOne(w.journal, c, event, w.source.events[event].camera, known));
            ForwardingMirrors(w') && LogSound(w'.log)
  {
    var camera := w.source.events[event].camera;
    var w' := Applied(w, ScanOne(w.journal, c, event, camera, known));
    ScanOneKeepsInv(w.journal, c, event, camera, known);
    var eligible := Eligible(w.journal, c, camera, known);
    ScanEntrySound(w, c, event, eligible);
    LogSoundSnoc(w.log, Scanned(c, event, eligible, if eligible then Some(w.journal.nextDelivery) else None));
    ScanMovesCursor(w, w', c, event, eligible);
  }

  lemma ScanKeepsRows(w: World, c: ConnectionId, event: EventId, known: set<Camera>)
    requires Inv(w.journal) && RowsMirror(w) && NextUp(w, c, event)
    requires Eligible(w.journal, c, w.source.events[event].camera, known) ==>
               |Pending(w.journal.deliveries, c)| < MAX_PENDING
    ensures RowsMirror(Applied(w, ScanOne(w.journal, c, event, w.source.events[event].camera, known)))
  {
    hide RowMirrors, RowsMirror, Pending, ConnectionsSound, LeasesSound, ReceivedSound, QueuesBounded, InEventOrder;
    var camera := w.source.events[event].camera;
    var w' := Applied(w, ScanOne(w.journal, c, event, camera, known));
    ScanOneKeepsInv(w.journal, c, event, camera, known);
    EnqueueIsNew(w.journal, c, event, camera);
    if Eligible(w.journal, c, camera, known) {
      EnqueueKeepsRows(w, w', c, event, camera);
    } else {
      var h := Scanned(c, event, false, None);
      forall s | s in w'.journal.deliveries
        ensures RowOnlyReset(w, w', h, s)
      {
      }
      ResetKeepsRows(w, w', h);
    }
  }

  lemma ScanKeepsTrace(w: World, c: ConnectionId, event: EventId, known: set<Camera>)
    requires TraceInv(w) && NextUp(w, c, event)
    requires Eligible(w.journal, c, w.source.events[event].camera, known) ==>
               |Pending(w.journal.deliveries, c)| < MAX_PENDING
    ensures TraceInv(Applied(w, ScanOne(w.journal, c, event, w.source.events[event].camera, known)))
  {
    ScanOneKeepsInv(w.journal, c, event, w.source.events[event].camera, known);
    ScanKeepsForwarding(w, c, event, known);
    ScanKeepsRows(w, c, event, known);
  }

  /** `ids` are consecutive stored events starting right after the cursor of `c`. */
  ghost predicate Upcoming(w: World, c: ConnectionId, ids: seq<EventId>) {
    && c in w.journal.connections
    && (forall id | id in ids :: id in w.source.events && w.journal.connections[c].cursor < id < w.source.next)
    && (forall i, l | 0 <= i < l < |ids| :: ids[i] < ids[l])
    && (forall id | id in w.source.events && w.journal.connections[c].cursor < id && id !in ids ::
          ids != [] ==> ids[|ids| - 1] < id)
  }

  lemma UpcomingFirst(w: World, c: ConnectionId, ids: seq<EventId>)
    requires Upcoming(w, c, ids) && ids != []
    ensures NextUp(w, c, ids[0])
  {
    assert ids[0] in ids;
    forall id | id in w.source.events && w.journal.connections[c].cursor < id
      ensures ids[0] <= id
    {
      if id in ids {
        var i :| 0 <= i < |ids| && ids[i] == id;
      }
    }
  }

  lemma UpcomingRest(w: World, c: ConnectionId, ids: seq<EventId>, w': World)
    requires Upcoming(w, c, ids) && ids != [] && w'.source == w.source
    requires c in w'.journal.connections && w'.journal.connections[c].cursor == ids[0]
    ensures Upcoming(w', c, ids[1..])
  {
    forall id | id in ids[1..]
      ensures id in ids && ids[0] < id
    {
      var i :| 0 <= i < |ids| - 1 && ids[1..][i] == id;
      assert ids[i + 1] == id;
    }
    assert ids[0] in ids;
    forall id | id in w'.source.events && ids[0] < id && id !in ids[1..]
      ensures ids[1..] != [] ==> ids[1..][|ids| - 2] < id
    {
      assert ids == [ids[0]] + ids[1..];
      assert id !in ids;
    }
  }

  /** Two effects in a row are one effect. */
  lemma InARow(w: World, one: Effect, rest: Effect)
    ensures Applied(Applied(w, one), rest) == Applied(w, Effect(rest.journal, one.log + rest.log))
  {
    assert (w.log + one.log) + rest.log == w.log + (one.log + rest.log);
  }

  lemma {:induction false} BatchKeepsTrace(w: World, c: ConnectionId, ids: seq<EventId>, known: set<Camera>)
    requires TraceInv(w) && Upcoming(w, c, ids)
    ensures TraceInv(Applied(w, ScanBatch(w.journal, c, ids, w.source.events, known)))
    decreases |ids|
  {
    var events := w.source.events;
    if ids == [] {
      assert w.log + [] == w.log;
    } else {
      UpcomingFirst(w, c, ids);
      if Eligible(w.journal, c, events[ids[0]].camera, known) && |Pending(w.journal.deliveries, c)| >= MAX_PENDING {
        assert w.log + [] == w.log;
      } else {
        var one := ScanOne(w.journal, c, ids[0], events[ids[0]].camera, known);
        ScanOneKeepsInv(w.journal, c, ids[0], events[ids[0]].camera, known);
        ScanKeepsTrace(w, c, ids[0], known);
        UpcomingRest(w, c, ids, Applied(w, one));
        BatchKeepsTrace(Applied(w, one), c, ids[1..], known);
        var rest := ScanBatch(one.journal, c, ids[1..], events, known);
        InARow(w, one, rest);
      }
    }
  }

  lemma CaptureForKeepsTrace(w: World, c: ConnectionId, known: set<Camera>)
    requires TraceInv(w)
    ensures TraceInv(Applied(w, CaptureFor(w.journal, c, w.source, known)))
  {
    if Captures(w.journal, c) {
      BatchKeepsTrace(w, c, BatchFor(w.journal, c, w.source), known);
    } else {
      assert w.log + [] == w.log;
    }
  }

  lemma {:induction false} CaptureKeepsTrace(w: World, order: seq<ConnectionId>, known: set<Camera>)
    requires TraceInv(w)
    ensures TraceInv(Applied(w, Capture(w.journal, order, w.source, known)))
    decreases |order|
  {
    if order == [] {
      assert w.log + [] == w.log;
    } else {
      var one := CaptureFor(w.journal, order[0], w.source, known);
      CaptureForKeepsTrace(w, order[0], known);
      CaptureKeepsTrace(Applied(w, one), order[1..], known);
      var rest := Capture(one.journal, order[1..], w.source, known);
      InARow(w, one, rest);
    }
  }

  // ---------------------------------------------------------------- every operation

  lemma HandOutKeepsTrace(w: World, c: ConnectionId, s: Sequence, now: int)
    requires TraceInv(w) && PendingFor(w.journal.deliveries, c, s)
    requires w.journal.deliveries[s].attempt < MAX_ATTEMPTS && Lease(w.journal.leases, (c, s)) <= now
    ensures TraceInv(Applied(w, HandOut(w.journal, c, s, now)))
  {
    hide Inv, SourceSound, ForwardingMirrors, RowsMirror, LogSound;
    HandOutKeepsInv(w.journal, c, s, now);
    SequenceKnown(w.journal, s);
    HandOutKeepsRows(w, c, s, now);
    NothingScannedKeepsForwarding(w, Applied(w, HandOut(w.journal, c, s, now)));
  }

  lemma PullRowsUnfold(w: World, c: ConnectionId, rows: seq<Sequence>, limit: nat, known: set<Camera>, now: int)
    requires c in w.journal.connections && (forall s | s in rows :: s in w.journal.deliveries)
    requires rows != [] && limit > 0 && Ready(w.journal, c, rows[0], known, now)
    ensures var v := Applied(w, HandOut(w.journal, c, rows[0], now));
            Applied(w, PullRows(w.journal, c, rows, limit, known, now))
            == Applied(v, PullRows(v.journal, c, rows[1..], limit - 1, known, now))
  {
    var one := HandOut(w.journal, c, rows[0], now);
    InARow(w, one, PullRows(one.journal, c, rows[1..], limit - 1, known, now));
  }

  lemma {:induction false} PullRowsKeepTrace(
      w: World, c: ConnectionId, rows: seq<Sequence>, limit: nat, known: set<Camera>, now: int) returns (w': World)
    requires TraceInv(w) && c in w.journal.connections && Fetched(w.journal.deliveries, c, rows)
    ensures TraceInv(w')
    ensures w' == Applied(w, PullRows(w.journal, c, rows, limit, known, now))
    decreases |rows|
  {
    hide TraceInv;
    if rows == [] || limit == 0 {
      w' := w;
      assert w.log + [] == w.log;
    } else {
      assert rows[0] in rows;
      FetchedRest(w.journal, c, rows, now);
      if Ready(w.journal, c, rows[0], known, now) {
        HandOutKeepsTrace(w, c, rows[0], now);
        w' := PullRowsKeepTrace(Applied(w, HandOut(w.journal, c, rows[0], now)), c, rows[1..], limit - 1, known, now);
        PullRowsUnfold(w, c, rows, limit, known, now);
      } else {
        w' := PullRowsKeepTrace(w, c, rows[1..], limit, known, now);
      }
    }
  }

  /** Operations that log one administrative entry and at most reset rows. */
  lemma ResetKeepsTrace(w: World, w': World, h: Happening)
    requires TraceInv(w) && Inv(w'.journal)
    requires RowsOnlyReset(w, w', h) && ScansNothing(w, w') && !h.Scanned?
    ensures TraceInv(w')
  {
    ResetKeepsRows(w, w', h);
    NothingScannedKeepsForwarding(w, w');
    assert EntrySound(w.log + [h], |w.log|);
    LogSoundSnoc(w.log, h);
  }

  lemma UpdatingKeepsTrace(w: World, c: ConnectionId, changes: Changes)
    requires TraceInv(w)
    ensures TraceInv(Step(w, Updating(c, changes)))
  {
    hide Inv, SourceSound, ForwardingMirrors, RowsMirror, LogSound;
    if Update(w.journal, c, changes).Ok? {
      var w' := Step(w, Updating(c, changes));
      UpdateKeepsInv(w.journal, c, changes);
      assert ScansNothing(w, w');
      forall s | s in w'.journal.deliveries
        ensures RowOnlyReset(w, w', Updated(c), s)
      {
      }
      ResetKeepsTrace(w, w', Updated(c));
    }
  }

  lemma DeleteResetsRows(w: World, c: ConnectionId)
    requires Delete(w.journal, c).Ok?
    ensures RowsOnlyReset(w, Step(w, Deleting(c)), Deleted(c)) && ScansNothing(w, Step(w, Deleting(c)))
  {
    hide ReceivedOfOthers;
    var w' := Step(w, Deleting(c));
    forall s | s in w'.journal.deliveries
      ensures RowOnlyReset(w, w', Deleted(c), s)
    {
    }
  }

  lemma DeletingKeepsTrace(w: World, c: ConnectionId)
    requires TraceInv(w)
    ensures TraceInv(Step(w, Deleting(c)))
  {
    hide Inv, SourceSound, ForwardingMirrors, RowsMirror, LogSound, RowsOnlyReset, ScansNothing;
    if Delete(w.journal, c).Ok? {
      DeleteKeepsInv(w.journal, c);
      DeleteResetsRows(w, c);
      ResetKeepsTrace(w, Step(w, Deleting(c)), Deleted(c));
    }
  }

  lemma RetryResetsRows(w: World, c: ConnectionId)
    requires Retry(w.journal, c).Ok?
    ensures RowsOnlyReset(w, Step(w, Retrying(c)), Retried(c)) && ScansNothing(w, Step(w, Retrying(c)))
  {
    var w' := Step(w, Retrying(c));
    forall s | s in w'.journal.deliveries
      ensures RowOnlyReset(w, w', Retried(c), s)
    {
    }
  }

  lemma RetryingKeepsTrace(w: World, c: ConnectionId)
    requires TraceInv(w)
    ensures TraceInv(Step(w, Retrying(c)))
  {
    hide Inv, SourceSound, ForwardingMirrors, RowsMirror, LogSound, RowsOnlyReset, ScansNothing;
    if Retry(w.journal, c).Ok? {
      RetryKeepsInv(w.journal, c);
      RetryResetsRows(w, c);
      ResetKeepsTrace(w, Step(w, Retrying(c)), Retried(c));
    }
  }

  lemma RestartingKeepsTrace(w: World)
    requires TraceInv(w)
    ensures TraceInv(Step(w, Restarting))
  {
    hide Inv, SourceSound, ForwardingMirrors, RowsMirror, LogSound;
    var w' := Step(w, Restarting);
    RestartKeepsInv(w.journal);
    assert ScansNothing(w, w');
    forall s | s in w'.journal.deliveries
      ensures RowOnlyReset(w, w', Restarted, s)
    {
    }
    ResetKeepsTrace(w, w', Restarted);
  }

  lemma PullingKeepsTrace(w: World, c: ConnectionId, token: Token, limit: int, known: set<Camera>, now: nat)
    requires TraceInv(w)
    ensures TraceInv(Step(w, Pulling(c, token, limit, known, now)))
  {
    if Pull(w.journal, c, token, limit, known, now).Ok? {
      var rows := Deliverable(w.journal.deliveries, c, 0, w.journal.nextDelivery, SCAN);
      var w' := PullRowsKeepTrace(w, c, rows, limit, known, now);
    }
  }

  lemma ShakingResetsNothing(w: World, c: ConnectionId, token: Token, compatible: bool, now: nat)
    requires ShakeHands(w.journal, c, token, compatible, now).1 != Some(Unauthorized)
    ensures var w', h := Step(w, Shaking(c, token, compatible, now)), Shook(c, compatible, now);
            RowsOnlyReset(w, w', h) && ScansNothing(w, w')
  {
    var w', h := Step(w, Shaking(c, token, compatible, now)), Shook(c, compatible, now);
    forall s | s in w'.journal.deliveries
      ensures RowOnlyReset(w, w', h, s)
    {
    }
  }

  lemma ShakingKeepsTrace(w: World, c: ConnectionId, token: Token, compatible: bool, now: nat)
    requires TraceInv(w)
    ensures TraceInv(Step(w, Shaking(c, token, compatible, now)))
  {
    hide Inv, SourceSound, ForwardingMirrors, RowsMirror, LogSound, RowsOnlyReset, ScansNothing;
    if ShakeHands(w.journal, c, token, compatible, now).1 != Some(Unauthorized) {
      HandshakeKeepsInv(w.journal, c, token, compatible, now);
      ShakingResetsNothing(w, c, token, compatible, now);
      ResetKeepsTrace(w, Step(w, Shaking(c, token, compatible, now)), Shook(c, compatible, now));
    }
  }

  lemma IngestingKeepsTrace(
      w: World, c: ConnectionId, token: Token, clockAhead: bool, received: Received, known: set<Camera>, now: nat)
    requires TraceInv(w)
    ensures TraceInv(Step(w, Ingesting(c, token, clockAhead, received, known, now)))
  {
    hide Inv, SourceSound, ForwardingMirrors, RowsMirror, LogSound;
    var r := Ingest(w.journal, c, token, clockAhead, received, known, now);
    if r.Ok? {
      var w', h := Step(w, Ingesting(c, token, clockAhead, received, known, now)), Ingested(c, received.event, r.value.1);
      IngestKeepsInv(w.journal, c, token, clockAhead, received, known, now);
      forall s | s in w'.journal.deliveries
        ensures RowOnlyReset(w, w', h, s)
      {
      }
      assert ScansNothing(w, w');
      ResetKeepsTrace(w, w', h);
    }
  }

  lemma CreatingKeepsTrace(w: World, c: ConnectionId, kind: Kind, token: Token, enabled: bool, grants: set<Camera>)
    requires TraceInv(w)
    ensures TraceInv(Step(w, Creating(c, kind, token, enabled, grants)))
  {
    hide Inv, SourceSound, RowsMirror, LogSound;
    if c !in w.used {
      var r := Create(w.journal, c, kind, token, enabled, grants);
      var w' := AppliedIfOk(w, r).(used := w.used + {c});
      if r.Ok? {
        CreateKeepsInv(w.journal, c, kind, token, enabled, grants);
        ResetKeepsTrace(w, w', Created(c));
      } else {
        NothingScannedKeepsForwarding(w, w');
        QuietKeepsRows(w, w');
      }
    }
  }

  /** A step that logs nothing and leaves deliveries and leases alone. */
  lemma QuietKeepsRows(w: World, w': World)
    requires RowsMirror(w) && w'.log == w.log
    requires w'.journal.deliveries == w.journal.deliveries && w'.journal.leases == w.journal.leases
    requires w'.journal.nextDelivery == w.journal.nextDelivery
    ensures RowsMirror(w')
  {
    forall s | s in w'.journal.deliveries
      ensures RowMirrors(w', s)
    {
      assert RowMirrors(w, s);
    }
  }

  /** What an accepted answer does to the world: its row answered, its lease gone, one entry logged. */
  lemma AnswerEffect(
      w: World, c: ConnectionId, token: Token, event: EventId, matches: bool, response: Response, known: set<Camera>,
      now: nat)
    requires Inv(w.journal) && Respond(w.journal, c, token, event, matches, response, known, now).Ok?
    ensures Find(w.journal.deliveries, c, event, w.journal.nextDelivery).Some?
    ensures var s, w' := Find(w.journal.deliveries, c, event, w.journal.nextDelivery).value,
                         Step(w, Responding(c, token, event, matches, response, known, now));
            && s in w.journal.deliveries && s < w.journal.nextDelivery
            && var d := w.journal.deliveries[s];
            && d.connection == c && d.sent && (d.response.Some? ==> d.response.value == response)
            && w'.source == w.source && w'.journal.connections == w.journal.connections
            && w'.journal.nextDelivery == w.journal.nextDelivery
            && w'.journal.deliveries == Retained(w.journal.deliveries[s := d.(response := Some(response))])
            && w'.journal.leases == w.journal.leases - {(c, s)}
            && w'.log == w.log + [Accepted(c, s, response, d.response.Some?)]
  {
    hide Machine, Retained, FindRow, InEventOrder, QueuesBounded, LeasesSound, ReceivedSound, ConnectionsSound;
    assert DeliverySound(w.journal, Find(w.journal.deliveries, c, event, w.journal.nextDelivery).value);
  }

  lemma RespondingKeepsTrace(
      w: World, c: ConnectionId, token: Token, event: EventId, matches: bool, response: Response, known: set<Camera>,
      now: nat)
    requires TraceInv(w)
    ensures TraceInv(Step(w, Responding(c, token, event, matches, response, known, now)))
  {
    hide Respond, Inv, RowsMirror, LogSound, SourceSound, Retained;
    if Respond(w.journal, c, token, event, matches, response, known, now).Ok? {
      var w' := Step(w, Responding(c, token, event, matches, response, known, now));
      AnswerEffect(w, c, token, event, matches, response, known, now);
      var s := Find(w.journal.deliveries, c, event, w.journal.nextDelivery).value;
      RespondKeepsInv(w.journal, c, token, event, matches, response, known, now);
      AnswerKeepsRows(w, w', c, s, response);
      NothingScannedKeepsForwarding(w, w');
    }
  }

  lemma RecordingKeepsTrace(w: World, camera: Camera, frame: Frame, emits: bool)
    requires TraceInv(w)
    ensures TraceInv(Step(w, Recording(camera, frame, emits)))
  {
    hide Inv, SourceSound, ForwardingMirrors, RowsMirror, LogSound;
    RecordKeepsSource(w.source, camera, frame, emits);
    RecordingKeepsForwarding(w, camera, frame, emits);
    QuietKeepsRows(w, Step(w, Recording(camera, frame, emits)));
  }

  lemma ConfiguringKeepsTrace(w: World, camera: Camera, analytics: Analytics)
    requires TraceInv(w)
    ensures TraceInv(Step(w, Configuring(camera, analytics)))
  {
    QuietKeepsRows(w, Step(w, Configuring(camera, analytics)));
  }

  lemma StepKeepsTrace(w: World, a: Action)
    requires TraceInv(w)
    ensures TraceInv(Step(w, a))
  {
    match a {
      case Creating(c, kind, token, enabled, grants) => CreatingKeepsTrace(w, c, kind, token, enabled, grants);
      case Updating(c, changes) => UpdatingKeepsTrace(w, c, changes);
      case Deleting(c) => DeletingKeepsTrace(w, c);
      case Retrying(c) => RetryingKeepsTrace(w, c);
      case Shaking(c, token, compatible, now) => ShakingKeepsTrace(w, c, token, compatible, now);
      case Restarting => RestartingKeepsTrace(w);
      case Capturing(order, known) => CaptureKeepsTrace(w, order, known);
      case Pulling(c, token, limit, known, now) => PullingKeepsTrace(w, c, token, limit, known, now);
      case Responding(c, token, event, matches, response, known, now) =>
        RespondingKeepsTrace(w, c, token, event, matches, response, known, now);
      case Ingesting(c, token, clockAhead, received, known, now) =>
        IngestingKeepsTrace(w, c, token, clockAhead, received, known, now);
      case Recording(camera, frame, emits) => RecordingKeepsTrace(w, camera, frame, emits);
      case Configuring(camera, analytics) => ConfiguringKeepsTrace(w, camera, analytics);
    }
  }

  lemma {:induction false} AlwaysSound(actions: seq<Action>)
    ensures TraceInv(Run(actions))
  {
    if actions != [] {
      AlwaysSound(actions[..|actions| - 1]);
      StepKeepsTrace(Run(actions[..|actions| - 1]), actions[|actions| - 1]);
    }
  }
}
