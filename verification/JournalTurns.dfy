/** How far one turn of forwarding goes, and whom forwarding serves at all. */
module JournalTurns {
  import opened Prelude
  import opened PersonEvents
  import opened DeliveryJournal
  import opened JournalInvariant
  import opened JournalTrace
  import opened JournalForwarding

  /** The unanswered deliveries of `c`. */
  function Unanswered(deliveries: map<Sequence, Delivery>, c: ConnectionId): set<Sequence> {
    set s | s in deliveries && deliveries[s].connection == c && deliveries[s].response.None?
  }

  /**
   One connection's turn. A disabled or analytic connection gets nothing and its cursor stays. Any other
   is shown the first 50 stored events past its cursor, in order, and its cursor rests on the last one
   shown; it is shown fewer only if the next one is granted and known and a thousand of its
   deliveries are unanswered.
   */
  lemma TurnReaches(j: Journal, c: ConnectionId, source: Source, known: set<Camera>)
    returns (ids: seq<EventId>, n: nat)
    requires SourceSound(source)
    ensures var r := CaptureFor(j, c, source, known);
            if !(c in j.connections && j.connections[c].kind == Neural && j.connections[c].enabled) then
              r == Effect(j, [])
            else
              && |ids| <= 50 && (forall i, k | 0 <= i < k < |ids| :: ids[i] < ids[k])
              && (forall id | id in ids :: id in source.events && id > j.connections[c].cursor)
              && (forall id | id in source.events && id > j.connections[c].cursor && id !in ids ::
                    |ids| == 50 && ids[49] < id)
              && n == |r.log| <= |ids|
              && (forall i | 0 <= i < n ::
                    r.log[i].Scanned? && r.log[i].connection == c && r.log[i].event == ids[i])
              && c in r.journal.connections
              && r.journal.connections[c].cursor == (if n > 0 then ids[n - 1] else j.connections[c].cursor)
              && (n < |ids| ==>
                    && ids[n] in source.events
                    && source.events[ids[n]].camera in j.connections[c].grants
                    && source.events[ids[n]].camera in known
                    && |Unanswered(r.journal.deliveries, c)| >= 1000)
  {
    hide ScanBatch, BatchFor, NextEvents, Pending, Unanswered, SourceSound;
    ids, n := [], |CaptureFor(j, c, source, known).log|;
    if Captures(j, c) {
      ids := BatchIs(j, c, source);
      var r := CaptureFor(j, c, source, known);
      BatchMeaning(j, c, ids, source.events, known);
      PendingIs(r.journal.deliveries, c);
    }
  }

  lemma BatchIs(j: Journal, c: ConnectionId, source: Source) returns (ids: seq<EventId>)
    requires SourceSound(source) && c in j.connections
    ensures ids == BatchFor(j, c, source)
    ensures |ids| <= 50 && forall i, k | 0 <= i < k < |ids| :: ids[i] < ids[k]
    ensures forall id | id in ids :: id in source.events && id > j.connections[c].cursor
    ensures forall id | id in source.events && id > j.connections[c].cursor && id !in ids :: |ids| == 50 && ids[49] < id
  {
    ids := BatchFor(j, c, source);
  }

  lemma PendingIs(deliveries: map<Sequence, Delivery>, c: ConnectionId)
    ensures Pending(deliveries, c) == Unanswered(deliveries, c)
  {
  }

  // ---------------------------------------------------------------- whom forwarding serves

  /** Every entry is about a connection that was enabled and neural in `j`. */
  ghost predicate Serves(j: Journal, log: seq<Happening>) {
    forall h | h in log ::
      && h.Scanned? && h.connection in j.connections
      && j.connections[h.connection].kind == Neural && j.connections[h.connection].enabled
  }

  /** Connections keep their kinds and stay enabled or disabled. */
  ghost predicate KindsKept(j: Journal, t: Journal) {
    && t.connections.Keys == j.connections.Keys
    && forall c | c in j.connections ::
         t.connections[c].kind == j.connections[c].kind && t.connections[c].enabled == j.connections[c].enabled
  }

  lemma ScanServes(j: Journal, c: ConnectionId, event: EventId, camera: Camera, known: set<Camera>)
    requires c in j.connections
    ensures var r := ScanOne(j, c, event, camera, known);
            KindsKept(j, r.journal) && c in r.journal.connections && forall h | h in r.log :: h.Scanned? && h.connection == c
  {
    hide FindRow;
  }

  lemma ReflexiveKinds(j: Journal)
    ensures KindsKept(j, j)
  {
  }

  lemma KindsKeptOn(j: Journal, t: Journal, u: Journal)
    requires KindsKept(j, t) && KindsKept(t, u)
    ensures KindsKept(j, u)
  {
  }

  lemma {:induction false} BatchServes(
      j: Journal, c: ConnectionId, ids: seq<EventId>, events: map<EventId, PersonEvent>, known: set<Camera>)
    requires c in j.connections && forall id | id in ids :: id in events
    ensures var r := ScanBatch(j, c, ids, events, known);
            KindsKept(j, r.journal) && forall h | h in r.log :: h.Scanned? && h.connection == c
    decreases |ids|
  {
    hide Eligible, Pending, ScanOne, KindsKept;
    ReflexiveKinds(j);
    if ids != [] && !(Eligible(j, c, events[ids[0]].camera, known) && |Pending(j.deliveries, c)| >= MAX_PENDING) {
      var one := ScanOne(j, c, ids[0], events[ids[0]].camera, known);
      ScanServes(j, c, ids[0], events[ids[0]].camera, known);
      BatchServes(one.journal, c, ids[1..], events, known);
      KindsKeptOn(j, one.journal, ScanBatch(one.journal, c, ids[1..], events, known).journal);
    }
  }

  lemma {:induction false} CaptureServes(j: Journal, order: seq<ConnectionId>, source: Source, known: set<Camera>)
    ensures var r := Capture(j, order, source, known); KindsKept(j, r.journal) && Serves(j, r.log)
    decreases |order|
  {
    hide ScanBatch;
    if order != [] {
      if Captures(j, order[0]) {
        BatchServes(j, order[0], BatchFor(j, order[0], source), source.events, known);
      }
      CaptureServes(CaptureFor(j, order[0], source, known).journal, order[1..], source, known);
    }
  }

  /** At any point of any run, forwarding scans and enqueues for enabled neural connections alone. */
  lemma OnlyEnabledNeural(actions: seq<Action>, order: seq<ConnectionId>, known: set<Camera>, k: nat)
    requires var w, w' := Run(actions), Step(Run(actions), Capturing(order, known)); |w.log| <= k < |w'.log|
    ensures var w, h := Run(actions), Step(Run(actions), Capturing(order, known)).log[k];
            && h.Scanned? && h.connection in w.journal.connections
            && w.journal.connections[h.connection].kind == Neural && w.journal.connections[h.connection].enabled
  {
    hide Run, Capture;
    var w := Run(actions);
    var r := Capture(w.journal, order, w.source, known);
    CaptureServes(w.journal, order, w.source, known);
    assert Step(w, Capturing(order, known)).log[k] == r.log[k - |w.log|] && r.log[k - |w.log|] in r.log;
  }

  // ---------------------------------------------------------------- every connection has its turn

  /** A turn of `b` leaves any other connection's row and queue alone. */
  lemma {:induction false} BatchLeavesOthers(
      j: Journal, b: ConnectionId, ids: seq<EventId>, events: map<EventId, PersonEvent>, known: set<Camera>,
      c: ConnectionId)
    requires Inv(j) && b in j.connections && c in j.connections && b != c
    requires forall id | id in ids :: id in events
    requires forall i | 0 <= i < |ids| :: ids[i] > j.connections[b].cursor
    requires forall i, l | 0 <= i < l < |ids| :: ids[i] < ids[l]
    ensures var t := ScanBatch(j, b, ids, events, known).journal;
            c in t.connections && t.connections[c] == j.connections[c]
            && Pending(t.deliveries, c) == Pending(j.deliveries, c)
    decreases |ids|
  {
    hide Inv, ScanOne, Pending;
    if ids != [] && !(Eligible(j, b, events[ids[0]].camera, known) && |Pending(j.deliveries, b)| >= MAX_PENDING) {
      ScanOneKeepsInv(j, b, ids[0], events[ids[0]].camera, known);
      ScanLeavesOthers(j, b, ids[0], events[ids[0]].camera, known, c);
      BatchLeavesOthers(ScanOne(j, b, ids[0], events[ids[0]].camera, known).journal, b, ids[1..], events, known, c);
    }
  }

  /** A scanned event past the cursor is queued exactly if it is eligible, under a sequence no row has. */
  lemma ScanQueues(j: Journal, c: ConnectionId, event: EventId, camera: Camera, known: set<Camera>)
    requires Inv(j) && c in j.connections && event > j.connections[c].cursor
    ensures j.nextDelivery !in j.deliveries
    ensures ScanOne(j, c, event, camera, known).journal.deliveries
         == if Eligible(j, c, camera, known) then j.deliveries[j.nextDelivery := Delivery(c, event, camera, 0, None, false)]
            else j.deliveries
  {
    hide Inv, FindRow, Eligible;
    EnqueueIsNew(j, c, event, camera);
  }

  lemma ScanLeavesOthers(
      j: Journal, b: ConnectionId, event: EventId, camera: Camera, known: set<Camera>, c: ConnectionId)
    requires Inv(j) && b in j.connections && c in j.connections && b != c && event > j.connections[b].cursor
    ensures Pending(ScanOne(j, b, event, camera, known).journal.deliveries, c) == Pending(j.deliveries, c)
  {
    hide Inv, ScanOne, Eligible, Pending;
    ScanQueues(j, b, event, camera, known);
    PendingAfterInsert(j.deliveries, j.nextDelivery, Delivery(b, event, camera, 0, None, false), c);
  }

  lemma NotPending(deliveries: map<Sequence, Delivery>, s: Sequence, c: ConnectionId)
    requires s !in deliveries
    ensures s !in Pending(deliveries, c)
  {
  }

  lemma ScanQueuesOne(j: Journal, c: ConnectionId, event: EventId, camera: Camera, known: set<Camera>)
    requires Inv(j) && c in j.connections && event > j.connections[c].cursor
    ensures |Pending(ScanOne(j, c, event, camera, known).journal.deliveries, c)|
         == |Pending(j.deliveries, c)| + if Eligible(j, c, camera, known) then 1 else 0
  {
    hide Inv, ScanOne, Eligible, Pending;
    ScanQueues(j, c, event, camera, known);
    PendingAfterInsert(j.deliveries, j.nextDelivery, Delivery(c, event, camera, 0, None, false), c);
    NotPending(j.deliveries, j.nextDelivery, c);
  }

  /** How far a turn goes depends on the connection's own row and the length of its queue alone. */
  lemma {:induction false} SameReach(
      j: Journal, t: Journal, c: ConnectionId, ids: seq<EventId>, events: map<EventId, PersonEvent>, known: set<Camera>)
    requires Inv(j) && Inv(t) && c in j.connections && c in t.connections && t.connections[c] == j.connections[c]
    requires |Pending(t.deliveries, c)| == |Pending(j.deliveries, c)|
    requires forall id | id in ids :: id in events
    requires forall i | 0 <= i < |ids| :: ids[i] > j.connections[c].cursor
    requires forall i, l | 0 <= i < l < |ids| :: ids[i] < ids[l]
    ensures ScanBatch(t, c, ids, events, known).journal.connections[c].cursor
         == ScanBatch(j, c, ids, events, known).journal.connections[c].cursor
    decreases |ids|
  {
    hide Inv, ScanOne, Pending;
    if ids != [] && !(Eligible(j, c, events[ids[0]].camera, known) && |Pending(j.deliveries, c)| >= MAX_PENDING) {
      var camera := events[ids[0]].camera;
      ScanOneKeepsInv(j, c, ids[0], camera, known);
      ScanOneKeepsInv(t, c, ids[0], camera, known);
      ScanQueuesOne(j, c, ids[0], camera, known);
      ScanQueuesOne(t, c, ids[0], camera, known);
      SameReach(ScanOne(j, c, ids[0], camera, known).journal, ScanOne(t, c, ids[0], camera, known).journal, c, ids[1..],
                events, known);
    }
  }

  lemma TurnLeavesOthers(j: Journal, b: ConnectionId, source: Source, known: set<Camera>, c: ConnectionId)
    requires Inv(j) && c in j.connections && b != c
    ensures var t := CaptureFor(j, b, source, known).journal;
            c in t.connections && t.connections[c] == j.connections[c]
            && Pending(t.deliveries, c) == Pending(j.deliveries, c)
  {
    hide Inv, Pending, ScanBatch;
    if Captures(j, b) {
      BatchLeavesOthers(j, b, BatchFor(j, b, source), source.events, known, c);
    }
  }

  lemma {:induction false} CaptureLeavesOthers(
      j: Journal, order: seq<ConnectionId>, source: Source, known: set<Camera>, c: ConnectionId)
    requires Inv(j) && c in j.connections && c !in order
    ensures var t := Capture(j, order, source, known).journal;
            c in t.connections && t.connections[c] == j.connections[c]
    decreases |order|
  {
    hide Inv, Pending, CaptureFor;
    if order != [] {
      TurnLeavesOthers(j, order[0], source, known, c);
      CaptureForKeepsInv(j, order[0], source, known);
      CaptureLeavesOthers(CaptureFor(j, order[0], source, known).journal, order[1..], source, known, c);
    }
  }

  lemma TurnReachesAlike(j: Journal, t: Journal, c: ConnectionId, source: Source, known: set<Camera>)
    requires Inv(j) && Inv(t) && c in j.connections && c in t.connections && t.connections[c] == j.connections[c]
    requires |Pending(t.deliveries, c)| == |Pending(j.deliveries, c)|
    ensures c in CaptureFor(j, c, source, known).journal.connections
    ensures c in CaptureFor(t, c, source, known).journal.connections
    ensures CaptureFor(t, c, source, known).journal.connections[c].cursor
         == CaptureFor(j, c, source, known).journal.connections[c].cursor
  {
    hide Inv, Pending, ScanBatch;
    SameReach(j, t, c, BatchFor(j, c, source), source.events, known);
  }

  /** Every connection listed has its turn, and goes as far as if it were the only one. */
  lemma {:induction false} EveryoneHasATurn(
      j: Journal, order: seq<ConnectionId>, source: Source, known: set<Camera>, c: ConnectionId)
    requires Inv(j) && c in j.connections && c in order
    requires forall i, k | 0 <= i < k < |order| :: order[i] != order[k]
    ensures c in Capture(j, order, source, known).journal.connections
    ensures c in CaptureFor(j, c, source, known).journal.connections
    ensures Capture(j, order, source, known).journal.connections[c].cursor
         == CaptureFor(j, c, source, known).journal.connections[c].cursor
    decreases |order|
  {
    hide Inv, Pending, CaptureFor;
    var t, rest := CaptureFor(j, order[0], source, known).journal, order[1..];
    CaptureForKeepsInv(j, order[0], source, known);
    TurnReachesAlike(j, j, c, source, known);
    if order[0] == c {
      assert c !in rest;
      CaptureLeavesOthers(t, rest, source, known, c);
    } else {
      TurnLeavesOthers(j, order[0], source, known, c);
      EveryoneHasATurn(t, rest, source, known, c);
      TurnReachesAlike(j, t, c, source, known);
    }
  }
}
