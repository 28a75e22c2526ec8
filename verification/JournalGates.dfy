/** Who may use the machine operations, over whole runs: nobody without a live, compatible handshake. */
module JournalGates {
  import opened Prelude
  import opened PersonEvents
  import opened DeliveryJournal
  import opened JournalTrace

  /** An operation that closes `c` until its next handshake. */
  predicate Closes(h: Happening, c: ConnectionId) {
    VoidsLeases(h, c) || h == Deleted(c)
  }

  /** Whatever decides whether `c` is open. */
  predicate Gates(h: Happening, c: ConnectionId) {
    Closes(h, c) || (h.Shook? && h.connection == c)
  }

  /** Until when `c` is open, read off the log alone; 0 if it is closed. */
  function OpenUntil(log: seq<Happening>, c: ConnectionId): int {
    if log == [] then 0
    else
      var last := log[|log| - 1];
      if !Gates(last, c) then OpenUntil(log[..|log| - 1], c)
      else if last.Shook? && last.compatible then last.at + HANDSHAKE_SECONDS
      else 0
  }

  /** The machine operation logged at `k` came while its connection was open. */
  ghost predicate CameWhileOpen(log: seq<Happening>, k: nat)
    requires k < |log|
  {
    && (log[k].HandedOut? ==> 0 <= log[k].at < OpenUntil(log[..k], log[k].connection))
    && (log[k].Accepted? || log[k].Ingested? ==> 0 < OpenUntil(log[..k], log[k].connection))
  }

  /** The handshakes in memory are what the log says, and no machine operation came without one. */
  ghost predicate Gated(w: World) {
    && (forall c: ConnectionId :: Handshake(w.journal.handshakes, c) == OpenUntil(w.log, c))
    && (forall k | 0 <= k < |w.log| :: CameWhileOpen(w.log, k))
  }

  lemma {:induction false} OpenAfter(log: seq<Happening>, more: seq<Happening>, c: ConnectionId)
    requires forall h | h in more :: !Gates(h, c)
    ensures OpenUntil(log + more, c) == OpenUntil(log, c)
  {
    if more == [] {
      assert log + more == log;
    } else {
      var init, last := more[..|more| - 1], more[|more| - 1];
      assert (log + more)[..|log + more| - 1] == log + init;
      assert last in more && forall h | h in init :: h in more;
      OpenAfter(log, init, c);
    }
  }

  /** An entry a machine operation logs: it opens and closes nothing, and came while its connection was open. */
  predicate Works(h: Happening, handshakes: map<ConnectionId, int>) {
    || h.Scanned?
    || (h.HandedOut? && 0 <= h.at < Handshake(handshakes, h.connection))
    || ((h.Accepted? || h.Ingested?) && 0 < Handshake(handshakes, h.connection))
  }

  /** Working, while the handshakes stay as they are. */
  lemma WorkKeepsGates(w: World, w': World, more: seq<Happening>)
    requires Gated(w) && w'.log == w.log + more && w'.journal.handshakes == w.journal.handshakes
    requires forall h | h in more :: Works(h, w.journal.handshakes)
    ensures Gated(w')
  {
    forall c: ConnectionId
      ensures Handshake(w'.journal.handshakes, c) == OpenUntil(w'.log, c)
    {
      OpenAfter(w.log, more, c);
    }
    forall k | 0 <= k < |w'.log|
      ensures CameWhileOpen(w'.log, k)
    {
      if k < |w.log| {
        assert CameWhileOpen(w.log, k);
        assert w'.log[..k] == w.log[..k];
      } else {
        var done := more[..k - |w.log|];
        assert w'.log[..k] == w.log + done;
        assert forall h | h in done :: h in more;
        assert w'.log[k] == more[k - |w.log|] && w'.log[k] in more;
        OpenAfter(w.log, done, w'.log[k].connection);
      }
    }
  }

  /** One administrative entry or handshake, and what it does to the handshakes. */
  lemma GateMoves(w: World, w': World, h: Happening)
    requires Gated(w) && w'.log == w.log + [h] && !h.HandedOut? && !h.Accepted? && !h.Ingested?
    requires forall c: ConnectionId ::
               Handshake(w'.journal.handshakes, c)
               == if !Gates(h, c) then Handshake(w.journal.handshakes, c)
                  else if h.Shook? && h.compatible then h.at + HANDSHAKE_SECONDS else 0
    ensures Gated(w')
  {
    assert w'.log[..|w.log|] == w.log && w'.log[|w.log|] == h;
    forall c: ConnectionId
      ensures Handshake(w'.journal.handshakes, c) == OpenUntil(w'.log, c)
    {
      assert Handshake(w.journal.handshakes, c) == OpenUntil(w.log, c);
    }
    forall k | 0 <= k < |w'.log|
      ensures CameWhileOpen(w'.log, k)
    {
      if k < |w.log| {
        assert CameWhileOpen(w.log, k);
        assert w'.log[..k] == w.log[..k];
      }
    }
  }

  // ---------------------------------------------------------------- one operation at a time

  /** Whatever token a machine presents, it is refused. */
  ghost predicate Closed(j: Journal, c: ConnectionId) {
    forall token, kind, now | now >= 0 :: Machine(j, c, token, kind, now).Some?
  }

  /** Right after an update, a retry, a deletion or a restart a connection is closed. */
  lemma AdministrationCloses(j: Journal, c: ConnectionId, changes: Changes)
    ensures Update(j, c, changes).Ok? ==> Closed(Update(j, c, changes).value.journal, c)
    ensures Retry(j, c).Ok? ==> Closed(Retry(j, c).value.journal, c)
    ensures Delete(j, c).Ok? ==> Closed(Delete(j, c).value.journal, c)
    ensures forall b :: Closed(Restart(j).journal, b)
  {
  }

  /** A handshake opens a connection exactly if it is compatible, and then for a minute and this token alone. */
  lemma HandshakeOpens(j: Journal, c: ConnectionId, token: Token, compatible: bool, at: int, other: Token, kind: Kind, now: int)
    requires ShakeHands(j, c, token, compatible, at).1 != Some(Unauthorized) && now >= 0
    ensures var t := ShakeHands(j, c, token, compatible, at).0;
            Machine(t, c, other, kind, now).None?
            <==> compatible && now < at + HANDSHAKE_SECONDS && other == token && kind == j.connections[c].kind
  {
  }

  // ---------------------------------------------------------------- the operations that log more than one entry

  lemma {:induction false} ScanningWorks(
      j: Journal, c: ConnectionId, ids: seq<EventId>, events: map<EventId, PersonEvent>, known: set<Camera>)
    requires c in j.connections && forall id | id in ids :: id in events
    ensures var r := ScanBatch(j, c, ids, events, known);
            r.journal.handshakes == j.handshakes && forall h | h in r.log :: h.Scanned?
    decreases |ids|
  {
    if ids != [] && !(Eligible(j, c, events[ids[0]].camera, known) && |Pending(j.deliveries, c)| >= MAX_PENDING) {
      hide Eligible, Pending;
      ScanningWorks(ScanOne(j, c, ids[0], events[ids[0]].camera, known).journal, c, ids[1..], events, known);
    }
  }

  lemma {:induction false} CapturingWorks(j: Journal, order: seq<ConnectionId>, source: Source, known: set<Camera>)
    ensures var r := Capture(j, order, source, known);
            r.journal.handshakes == j.handshakes && forall h | h in r.log :: h.Scanned?
    decreases |order|
  {
    hide ScanBatch;
    if order != [] {
      if Captures(j, order[0]) {
        ScanningWorks(j, order[0], BatchFor(j, order[0], source), source.events, known);
      }
      CapturingWorks(CaptureFor(j, order[0], source, known).journal, order[1..], source, known);
    }
  }

  lemma {:induction false} PullingWorks(
      j: Journal, c: ConnectionId, rows: seq<Sequence>, limit: nat, known: set<Camera>, now: int)
    requires c in j.connections && forall s | s in rows :: s in j.deliveries
    ensures var r := PullRows(j, c, rows, limit, known, now);
            && r.journal.handshakes == j.handshakes
            && (forall h | h in r.log :: h.HandedOut? && h.connection == c && h.at == now)
    decreases |rows|
  {
    if rows != [] && limit > 0 {
      if Ready(j, c, rows[0], known, now) {
        PullingWorks(HandOut(j, c, rows[0], now).journal, c, rows[1..], limit - 1, known, now);
      } else {
        PullingWorks(j, c, rows[1..], limit, known, now);
      }
    }
  }

  // ---------------------------------------------------------------- every step

  lemma AdministrationKeepsGates(w: World, a: Action)
    requires Gated(w) && (a.Creating? || a.Updating? || a.Deleting? || a.Retrying? || a.Restarting? || a.Shaking?)
    ensures Gated(Step(w, a))
  {
    hide Gated, StillGranted, LeasesWithout, DeliveriesOfOthers, ReceivedOfOthers, AttemptsReset, Edited;
    var w' := Step(w, a);
    if w'.log != w.log {
      assert w'.log == w.log + [w'.log[|w.log|]];
      GateMoves(w, w', w'.log[|w.log|]);
    } else {
      SameGates(w, w');
    }
  }

  /** Steps that log nothing and leave the handshakes alone. */
  lemma SameGates(w: World, w': World)
    requires Gated(w) && w'.log == w.log && w'.journal.handshakes == w.journal.handshakes
    ensures Gated(w')
  {
  }

  lemma MachinesKeepGates(w: World, a: Action)
    requires Gated(w) && (a.Capturing? || a.Pulling? || a.Responding? || a.Ingesting?)
    ensures Gated(Step(w, a))
  {
    hide Gated, Capture, PullRows, Deliverable, FindRow, Retained;
    match a {
      case Capturing(order, known) =>
        CapturingWorks(w.journal, order, w.source, known);
        WorkKeepsGates(w, Step(w, a), Capture(w.journal, order, w.source, known).log);
      case Pulling(c, token, limit, known, now) =>
        var r := Pull(w.journal, c, token, limit, known, now);
        if r.Ok? {
          PullingWorks(
            w.journal, c, Deliverable(w.journal.deliveries, c, 0, w.journal.nextDelivery, SCAN), limit, known, now);
          WorkKeepsGates(w, Step(w, a), r.value.log);
        }
      case Responding(c, token, event, matches, response, known, now) =>
        var r := Respond(w.journal, c, token, event, matches, response, known, now);
        if r.Ok? {
          WorkKeepsGates(w, Step(w, a), r.value.log);
        }
      case Ingesting(c, token, clockAhead, received, known, now) =>
        var r := Ingest(w.journal, c, token, clockAhead, received, known, now);
        if r.Ok? {
          WorkKeepsGates(w, Step(w, a), [Ingested(c, received.event, r.value.1)]);
        }
    }
  }

  lemma StepKeepsGates(w: World, a: Action)
    requires Gated(w)
    ensures Gated(Step(w, a))
  {
    if a.Capturing? || a.Pulling? || a.Responding? || a.Ingesting? {
      MachinesKeepGates(w, a);
    } else if a.Recording? || a.Configuring? {
      hide Gated, Recorded;
      SameGates(w, Step(w, a));
    } else {
      AdministrationKeepsGates(w, a);
    }
  }

  lemma {:induction false} AlwaysGated(actions: seq<Action>)
    ensures Gated(Run(actions))
  {
    if actions != [] {
      hide Gated, Step;
      AlwaysGated(actions[..|actions| - 1]);
      StepKeepsGates(Run(actions[..|actions| - 1]), actions[|actions| - 1]);
    }
  }

  // ---------------------------------------------------------------- the theorem

  /** The handshake an open connection owes it to. */
  lemma {:induction false} OpenedBy(log: seq<Happening>, c: ConnectionId) returns (i: nat)
    requires OpenUntil(log, c) > 0
    ensures i < |log| && log[i].Shook? && log[i].connection == c && log[i].compatible
    ensures OpenUntil(log, c) == log[i].at + HANDSHAKE_SECONDS
    ensures forall l | i < l < |log| :: !Gates(log[l], c)
  {
    i := |log| - 1;
    if !Gates(log[i], c) {
      var init := log[..i];
      i := OpenedBy(init, c);
      assert forall l | 0 <= l < |init| :: log[l] == init[l];
    }
  }

  /** What a machine did: it was handed a delivery, had an answer accepted, or had an event ingested. */
  predicate MachineWork(h: Happening) {
    h.HandedOut? || h.Accepted? || h.Ingested?
  }

  /**
   Over any run: before every hand-out, accepted answer and ingested event of a connection comes a
   compatible handshake, with no update, retry, deletion, restart or other handshake in between,
   and a hand-out comes within a minute of it.
   */
  lemma HandshakeFirst(actions: seq<Action>, m: nat) returns (i: nat)
    requires var log := Run(actions).log; m < |log| && MachineWork(log[m])
    ensures var log := Run(actions).log;
            && i < m && log[i].Shook? && log[i].connection == log[m].connection && log[i].compatible
            && (forall l | i < l < m :: !Gates(log[l], log[m].connection))
            && (log[m].HandedOut? ==> log[m].at < log[i].at + HANDSHAKE_SECONDS)
  {
    hide Run;
    var log := Run(actions).log;
    AlwaysGated(actions);
    assert CameWhileOpen(log, m);
    i := OpenedBy(log[..m], log[m].connection);
    assert forall l | 0 <= l < m :: log[..m][l] == log[l];
  }

  /** Between an update, a retry, a deletion or a restart and the next compatible handshake no machine gets anything done. */
  lemma ClosedUntilHandshake(actions: seq<Action>, k: nat, m: nat)
    requires var log := Run(actions).log;
             k < m < |log| && MachineWork(log[m]) && Closes(log[k], log[m].connection)
    ensures var log := Run(actions).log;
            exists i :: k < i < m && log[i].Shook? && log[i].connection == log[m].connection && log[i].compatible
  {
    hide Run;
    var i := HandshakeFirst(actions, m);
    assert Gates(Run(actions).log[k], Run(actions).log[m].connection);
  }
}
