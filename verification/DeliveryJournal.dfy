/**
 The integration journal: connections, durable deliveries, inbound events, handshakes and leases.

 An observation's identity is a digest of its site, camera and source event id; it is modelled by
 that id. Every operation is a function of the journal; `Happening` is what it did that a trace shows.
 */
module DeliveryJournal {
  import opened Prelude
  import opened RetainedTable
  import opened PersonEvents

  const MAX_CONNECTIONS: nat := 16
  const MAX_PENDING: nat := 1000
  const MAX_RETAINED: nat := 10_000
  const MAX_ATTEMPTS: nat := 8
  const HANDSHAKE_SECONDS: nat := 60
  const BATCH: nat := 50
  const SCAN: nat := 100

  type ConnectionId = nat
  type Sequence = nat
  type Token = nat
  type Response = nat
  type Content = nat

  datatype Kind = Neural | Analytic

  datatype Connection = Connection(
    kind: Kind, token: Token, enabled: bool, grants: set<Camera>, generation: nat, cursor: EventId)

  datatype Delivery = Delivery(
    connection: ConnectionId, event: EventId, camera: Camera, attempt: nat, response: Option<Response>, sent: bool)

  datatype Received = Received(connection: ConnectionId, event: nat, camera: Camera, content: Content)

  type LeaseKey = (ConnectionId, Sequence)

  datatype Journal = Journal(
    connections: map<ConnectionId, Connection>,
    deliveries: map<Sequence, Delivery>, nextDelivery: Sequence,
    received: map<Sequence, Received>, nextReceived: Sequence,
    handshakes: map<ConnectionId, int>, leases: map<LeaseKey, int>)

  datatype JournalError =
    | Invalid | Capacity | ScopeRequired | NotFound | Unauthorized | HandshakeRequired | Incompatible
    | ClockAhead | CameraForbidden | Mismatch | Conflict

  /** What a trace of the journal shows. */
  datatype Happening =
    | Created(connection: ConnectionId)
    | Updated(connection: ConnectionId)
    | Deleted(connection: ConnectionId)
    | Retried(connection: ConnectionId)
    | Restarted
    | Shook(connection: ConnectionId, compatible: bool, at: int)
    | Scanned(connection: ConnectionId, event: EventId, eligible: bool, enqueued: Option<Sequence>)
    | HandedOut(connection: ConnectionId, sequence: Sequence, attempt: nat, replay: bool, at: int)
    | Accepted(connection: ConnectionId, sequence: Sequence, response: Response, duplicate: bool)
    | Ingested(connection: ConnectionId, event: nat, duplicate: bool)

  datatype Effect = Effect(journal: Journal, log: seq<Happening>)

  // ---------------------------------------------------------------- reading the tables

  predicate PendingFor(deliveries: map<Sequence, Delivery>, c: ConnectionId, s: Sequence) {
    s in deliveries && deliveries[s].connection == c && deliveries[s].response.None?
  }

  function Pending(deliveries: map<Sequence, Delivery>, c: ConnectionId): set<Sequence> {
    set s | s in deliveries && PendingFor(deliveries, c, s)
  }

  function Answered(deliveries: map<Sequence, Delivery>): set<Sequence> {
    set s | s in deliveries && deliveries[s].response.Some?
  }

  /** What a row is unique by: the connection it belongs to and the event it is about. */
  type RowKey = (ConnectionId, nat)

  function DeliveryKey(d: Delivery): RowKey {
    (d.connection, d.event)
  }

  function ReceivedKey(r: Received): RowKey {
    (r.connection, r.event)
  }

  /** The row with a given key, looked up among the sequences from `from` up to `past`. */
  function FindRow<V>(table: map<Sequence, V>, keyOf: V -> RowKey, key: RowKey, from: Sequence, past: Sequence)
    : (r: Option<Sequence>)
    ensures r.Some? ==> from <= r.value < past && r.value in table && keyOf(table[r.value]) == key
    ensures r.None? ==> forall s :: from <= s < past && s in table ==> keyOf(table[s]) != key
    decreases past - from
  {
    if from >= past then None
    else if from in table && keyOf(table[from]) == key then Some(from)
    else FindRow(table, keyOf, key, from + 1, past)
  }

  /** The delivery of `event` to `c`. */
  function Find(deliveries: map<Sequence, Delivery>, c: ConnectionId, event: EventId, past: Sequence): Option<Sequence> {
    FindRow(deliveries, DeliveryKey, (c, event), 0, past)
  }

  /** The inbound event `event` of `c`. */
  function FindReceived(received: map<Sequence, Received>, c: ConnectionId, event: nat, past: Sequence)
    : Option<Sequence>
  {
    FindRow(received, ReceivedKey, (c, event), 0, past)
  }

  function Lease(leases: map<LeaseKey, int>, key: LeaseKey): int {
    if key in leases then leases[key] else 0
  }

  function Handshake(handshakes: map<ConnectionId, int>, c: ConnectionId): int {
    if c in handshakes then handshakes[c] else 0
  }

  function LeasesWithout(leases: map<LeaseKey, int>, c: ConnectionId): map<LeaseKey, int> {
    map key | key in leases && key.0 != c :: leases[key]
  }

  /** `authenticate` and the live handshake that every machine operation needs. */
  function Machine(j: Journal, c: ConnectionId, token: Token, kind: Kind, now: int): Option<JournalError> {
    if c !in j.connections || !j.connections[c].enabled || j.connections[c].token != token
       || j.connections[c].kind != kind then Some(Unauthorized)
    else if Handshake(j.handshakes, c) <= now then Some(HandshakeRequired)
    else None
  }

  // ---------------------------------------------------------------- administration

  /** A partial update; `labels` stands for a new name or origin, which nothing below reads. */
  datatype Changes = Changes(labels: bool, token: Option<Token>, enabled: Option<bool>, grants: Option<set<Camera>>)

  function Create(j: Journal, c: ConnectionId, kind: Kind, token: Token, enabled: bool, grants: set<Camera>)
    : Result<Effect, JournalError>
  {
    if enabled && grants == {} then Err(ScopeRequired)
    else if |j.connections| >= MAX_CONNECTIONS then Err(Capacity)
    else
      Ok(Effect(j.(connections := j.connections[c := Connection(kind, token, enabled, grants, 1, 0)]), [Created(c)]))
  }

  /** The rows an update leaves: unanswered ones for cameras no longer granted are discarded. */
  function StillGranted(deliveries: map<Sequence, Delivery>, c: ConnectionId, grants: set<Camera>)
    : map<Sequence, Delivery>
  {
    map s | s in deliveries && (PendingFor(deliveries, c, s) ==> deliveries[s].camera in grants) :: deliveries[s]
  }

  predicate AsksNothing(changes: Changes) {
    !changes.labels && changes.token.None? && changes.enabled.None? && changes.grants.None?
  }

  function Chosen<T>(change: Option<T>, current: T): T {
    if change.Some? then change.value else current
  }

  /** The connection row with the requested fields replaced; every update starts a new generation. */
  function Edited(row: Connection, changes: Changes): Connection {
    row.(token := Chosen(changes.token, row.token), enabled := Chosen(changes.enabled, row.enabled),
         grants := Chosen(changes.grants, row.grants), generation := row.generation + 1)
  }

  function Update(j: Journal, c: ConnectionId, changes: Changes): Result<Effect, JournalError> {
    if AsksNothing(changes) then Err(Invalid)
    else if c !in j.connections then Err(NotFound)
    else
      var updated := Edited(j.connections[c], changes);
      if updated.enabled && updated.grants == {} then Err(ScopeRequired)
      else
        Ok(Effect(
             j.(connections := j.connections[c := updated],
                deliveries := StillGranted(j.deliveries, c, updated.grants),
                handshakes := j.handshakes - {c}, leases := LeasesWithout(j.leases, c)),
             [Updated(c)]))
  }

  function Delete(j: Journal, c: ConnectionId): Result<Effect, JournalError> {
    if c !in j.connections then Err(NotFound)
    else
      Ok(Effect(
           j.(connections := j.connections - {c}, deliveries := DeliveriesOfOthers(j.deliveries, c),
              received := ReceivedOfOthers(j.received, c),
              handshakes := j.handshakes - {c}, leases := LeasesWithout(j.leases, c)),
           [Deleted(c)]))
  }

  function DeliveriesOfOthers(deliveries: map<Sequence, Delivery>, c: ConnectionId): map<Sequence, Delivery> {
    map s | s in deliveries && deliveries[s].connection != c :: deliveries[s]
  }

  function ReceivedOfOthers(received: map<Sequence, Received>, c: ConnectionId): map<Sequence, Received> {
    map s | s in received && received[s].connection != c :: received[s]
  }

  /** The explicit operator retry: every unanswered delivery of `c` gets its attempts back. */
  function AttemptsReset(deliveries: map<Sequence, Delivery>, c: ConnectionId): map<Sequence, Delivery> {
    map s | s in deliveries ::
      if PendingFor(deliveries, c, s) then deliveries[s].(attempt := 0) else deliveries[s]
  }

  function Retry(j: Journal, c: ConnectionId): Result<Effect, JournalError> {
    if c !in j.connections then Err(NotFound)
    else
      Ok(Effect(
           j.(deliveries := AttemptsReset(j.deliveries, c), handshakes := j.handshakes - {c},
              leases := LeasesWithout(j.leases, c)),
           [Retried(c)]))
  }

  /** `handshake`: a compatible one opens the machine operations for a minute, any other closes them. */
  function ShakeHands(j: Journal, c: ConnectionId, token: Token, compatible: bool, now: int)
    : (Journal, Option<JournalError>)
  {
    if c !in j.connections || !j.connections[c].enabled || j.connections[c].token != token then (j, Some(Unauthorized))
    else if compatible then (j.(handshakes := j.handshakes[c := now + HANDSHAKE_SECONDS]), None)
    else (j.(handshakes := j.handshakes - {c}), Some(Incompatible))
  }

  /** Closing and reopening the store: what was only in memory is gone. */
  function Restart(j: Journal): Effect {
    Effect(j.(handshakes := map[], leases := map[]), [Restarted])
  }

  // ---------------------------------------------------------------- forwarding person events

  /** `ids` are the first `k` stored event ids from `from` on, ascending. */
  ghost predicate IsBatch(events: map<EventId, PersonEvent>, from: EventId, past: EventId, k: nat, ids: seq<EventId>) {
    && |ids| <= k
    && (forall i :: 0 <= i < |ids| ==> from <= ids[i] < past && ids[i] in events)
    && (forall i, l :: 0 <= i < l < |ids| ==> ids[i] < ids[l])
    && (forall id :: from <= id < past && id in events && id !in ids ==>
                       |ids| == k && (k > 0 ==> ids[k - 1] < id))
  }

  /** One bounded batch. */
  function NextEvents(events: map<EventId, PersonEvent>, from: EventId, past: EventId, k: nat): (ids: seq<EventId>)
    ensures IsBatch(events, from, past, k, ids)
    decreases past - from
  {
    if from >= past || k == 0 then []
    else if from in events then [from] + NextEvents(events, from + 1, past, k - 1)
    else NextEvents(events, from + 1, past, k)
  }

  /** Whether `c` may be told of an event of `camera` now. */
  predicate Eligible(j: Journal, c: ConnectionId, camera: Camera, known: set<Camera>)
    requires c in j.connections
  {
    camera in j.connections[c].grants && camera in known
  }

  /** INSERT OR IGNORE: a second row for the same connection and event is never made. */
  function Enqueue(j: Journal, c: ConnectionId, event: EventId, camera: Camera): (Journal, Option<Sequence>) {
    if Find(j.deliveries, c, event, j.nextDelivery).Some? then (j, None)
    else
      (j.(deliveries := j.deliveries[j.nextDelivery := Delivery(c, event, camera, 0, None, false)],
          nextDelivery := j.nextDelivery + 1),
       Some(j.nextDelivery))
  }

  /** One event of a batch: enqueue it if eligible, then move the cursor past it. */
  function ScanOne(j: Journal, c: ConnectionId, event: EventId, camera: Camera, known: set<Camera>): Effect
    requires c in j.connections
  {
    var eligible := Eligible(j, c, camera, known);
    var enqueued := if eligible then Enqueue(j, c, event, camera) else (j, None);
    Effect(enqueued.0.(connections := enqueued.0.connections[c := enqueued.0.connections[c].(cursor := event)]),
           [Scanned(c, event, eligible, enqueued.1)])
  }

  /** The batch loop: it stops before the first eligible event that finds the queue full. */
  function ScanBatch(
      j: Journal, c: ConnectionId, ids: seq<EventId>, events: map<EventId, PersonEvent>, known: set<Camera>): (r: Effect)
    requires c in j.connections && forall id | id in ids :: id in events
    ensures c in r.journal.connections
    decreases |ids|
  {
    if ids == [] then Effect(j, [])
    else if Eligible(j, c, events[ids[0]].camera, known) && |Pending(j.deliveries, c)| >= MAX_PENDING then Effect(j, [])
    else
      var one := ScanOne(j, c, ids[0], events[ids[0]].camera, known);
      var rest := ScanBatch(one.journal, c, ids[1..], events, known);
      Effect(rest.journal, one.log + rest.log)
  }

  predicate Captures(j: Journal, c: ConnectionId) {
    c in j.connections && j.connections[c].kind == Neural && j.connections[c].enabled
  }

  /** The rows one connection's turn reads: the next ones past its cursor. */
  function BatchFor(j: Journal, c: ConnectionId, source: Source): (ids: seq<EventId>)
    requires c in j.connections
    ensures IsBatch(source.events, j.connections[c].cursor + 1, source.next, BATCH, ids)
  {
    NextEvents(source.events, j.connections[c].cursor + 1, source.next, BATCH)
  }

  /** One connection's turn: nothing unless it is an enabled neural connection. */
  function CaptureFor(j: Journal, c: ConnectionId, source: Source, known: set<Camera>): Effect {
    if !Captures(j, c) then Effect(j, [])
    else ScanBatch(j, c, BatchFor(j, c, source), source.events, known)
  }

  /** `capture_person_events` over the connections in the order the database lists them. */
  function Capture(j: Journal, order: seq<ConnectionId>, source: Source, known: set<Camera>): Effect
    decreases |order|
  {
    if order == [] then Effect(j, [])
    else
      var one := CaptureFor(j, order[0], source, known);
      var rest := Capture(one.journal, order[1..], source, known);
      Effect(rest.journal, one.log + rest.log)
  }

  // ---------------------------------------------------------------- hand-outs

  function Pow2(n: nat): (p: nat)
    ensures p >= 1
  {
    if n == 0 then 1 else 2 * Pow2(n - 1)
  }

  /** Elapsed backoff before the next hand-out: 2, 4, 8, ... seconds, at most 60. */
  function Backoff(attempt: nat): nat {
    if Pow2(attempt) < 60 then Pow2(attempt) else 60
  }

  /** Unanswered deliveries of `c` with attempts left, ascending, at most `k`. */
  function Deliverable(deliveries: map<Sequence, Delivery>, c: ConnectionId, from: Sequence, past: Sequence, k: nat)
    : (rows: seq<Sequence>)
    ensures forall i :: 0 <= i < |rows| ==>
              from <= rows[i] < past && PendingFor(deliveries, c, rows[i]) && deliveries[rows[i]].attempt < MAX_ATTEMPTS
    ensures forall i, l :: 0 <= i < l < |rows| ==> rows[i] < rows[l]
    decreases past - from
  {
    if from >= past || k == 0 then []
    else if PendingFor(deliveries, c, from) && deliveries[from].attempt < MAX_ATTEMPTS then
      [from] + Deliverable(deliveries, c, from + 1, past, k - 1)
    else Deliverable(deliveries, c, from + 1, past, k)
  }

  predicate Ready(j: Journal, c: ConnectionId, s: Sequence, known: set<Camera>, now: int)
    requires c in j.connections && s in j.deliveries
  {
    && Lease(j.leases, (c, s)) <= now
    && j.deliveries[s].camera in j.connections[c].grants
    && j.deliveries[s].camera in known
  }

  function HandOut(j: Journal, c: ConnectionId, s: Sequence, now: int): Effect
    requires s in j.deliveries
  {
    var d := j.deliveries[s];
    Effect(j.(deliveries := j.deliveries[s := d.(attempt := d.attempt + 1, sent := true)],
              leases := j.leases[(c, s) := now + Backoff(d.attempt + 1)]),
           [HandedOut(c, s, d.attempt + 1, d.sent, now)])
  }

  /** The pull loop over the rows it fetched. */
  function PullRows(j: Journal, c: ConnectionId, rows: seq<Sequence>, limit: nat, known: set<Camera>, now: int): Effect
    requires c in j.connections && forall s | s in rows :: s in j.deliveries
    decreases |rows|
  {
    if rows == [] || limit == 0 then Effect(j, [])
    else if !Ready(j, c, rows[0], known, now) then PullRows(j, c, rows[1..], limit, known, now)
    else
      var one := HandOut(j, c, rows[0], now);
      var rest := PullRows(one.journal, c, rows[1..], limit - 1, known, now);
      Effect(rest.journal, one.log + rest.log)
  }

  function Pull(j: Journal, c: ConnectionId, token: Token, limit: int, known: set<Camera>, now: int)
    : Result<Effect, JournalError>
  {
    if !(1 <= limit <= 20) then Err(Invalid)
    else
      var refused := Machine(j, c, token, Neural, now);
      if refused.Some? then Err(refused.value)
      else Ok(PullRows(j, c, Deliverable(j.deliveries, c, 0, j.nextDelivery, SCAN), limit, known, now))
  }

  // ---------------------------------------------------------------- responses

  /** The retention delete: answered rows that are not among the newest rows of the whole table. */
  function Retained(deliveries: map<Sequence, Delivery>): map<Sequence, Delivery> {
    map s | s in deliveries && (deliveries[s].response.None? || AmongNewest(deliveries.Keys, s, MAX_RETAINED)) ::
      deliveries[s]
  }

  /** `matches`: the echoed request is exactly the one handed out and the response validates against it. */
  function Respond(
      j: Journal, c: ConnectionId, token: Token, event: EventId, matches: bool, response: Response, known: set<Camera>,
      now: int): Result<Effect, JournalError>
  {
    var refused := Machine(j, c, token, Neural, now);
    var row := Find(j.deliveries, c, event, j.nextDelivery);
    if refused.Some? then Err(refused.value)
    else if row.None? || j.deliveries[row.value].attempt < 1 then Err(Mismatch)
    else
      var d := j.deliveries[row.value];
      if d.camera !in j.connections[c].grants || d.camera !in known then Err(CameraForbidden)
      else if !matches then Err(Mismatch)
      else if d.response.Some? && d.response.value != response then Err(Conflict)
      else
        var answered := j.deliveries[row.value := d.(response := Some(response))];
        Ok(Effect(j.(deliveries := Retained(answered), leases := j.leases - {(c, row.value)}),
                  [Accepted(c, row.value, response, d.response.Some?)]))
  }

  // ---------------------------------------------------------------- inbound analytics events

  /** `ingest`: the answer says whether the event was already there. */
  function Ingest(
      j: Journal, c: ConnectionId, token: Token, clockAhead: bool, event: Received, known: set<Camera>, now: int)
    : Result<(Journal, bool), JournalError>
  {
    var refused := Machine(j, c, token, Analytic, now);
    if refused.Some? then Err(refused.value)
    else if clockAhead then Err(ClockAhead)
    else if event.camera !in j.connections[c].grants || event.camera !in known then Err(CameraForbidden)
    else
      var row := FindReceived(j.received, c, event.event, j.nextReceived);
      if row.Some? then
        if j.received[row.value].(connection := c) == event.(connection := c) then Ok((j, true)) else Err(Conflict)
      else
        Ok((j.(received := Newest(j.received[j.nextReceived := event.(connection := c)], MAX_RETAINED),
               nextReceived := j.nextReceived + 1), false))
  }

  // ---------------------------------------------------------------- the whole-journal invariant

  /** What every stored delivery is known to be. */
  ghost predicate DeliverySound(j: Journal, s: Sequence)
    requires s in j.deliveries
  {
    var d := j.deliveries[s];
    && s < j.nextDelivery
    && d.connection in j.connections
    && d.event <= j.connections[d.connection].cursor
    && d.attempt <= MAX_ATTEMPTS
    && (d.response.Some? ==> d.attempt >= 1)
    && (d.attempt >= 1 ==> d.sent)
    && (d.response.None? ==> d.camera in j.connections[d.connection].grants)
  }

  /** Within a connection, delivery order is event order. */
  ghost predicate InEventOrder(deliveries: map<Sequence, Delivery>) {
    forall s, t | s in deliveries && t in deliveries && s < t && deliveries[s].connection == deliveries[t].connection ::
      deliveries[s].event < deliveries[t].event
  }

  ghost predicate QueuesBounded(deliveries: map<Sequence, Delivery>) {
    && (forall c: ConnectionId :: |Pending(deliveries, c)| <= MAX_PENDING)
    && |Answered(deliveries)| <= MAX_RETAINED
  }

  ghost predicate LeasesSound(j: Journal) {
    forall key | key in j.leases :: PendingFor(j.deliveries, key.0, key.1)
  }

  ghost predicate ReceivedSound(j: Journal) {
    && |j.received| <= MAX_RETAINED
    && (forall s | s in j.received :: s < j.nextReceived && j.received[s].connection in j.connections)
    && (forall s, t | s in j.received && t in j.received && s != t ::
          j.received[s].connection != j.received[t].connection || j.received[s].event != j.received[t].event)
  }

  ghost predicate ConnectionsSound(j: Journal) {
    && |j.connections| <= MAX_CONNECTIONS
    && (forall c | c in j.connections :: j.connections[c].enabled ==> j.connections[c].grants != {})
    && (forall c | c in j.handshakes :: c in j.connections)
  }

  ghost predicate Inv(j: Journal) {
    && ConnectionsSound(j)
    && (forall s | s in j.deliveries :: DeliverySound(j, s))
    && InEventOrder(j.deliveries)
    && QueuesBounded(j.deliveries)
    && LeasesSound(j)
    && ReceivedSound(j)
  }
}
