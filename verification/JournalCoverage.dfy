/** What forwarding covers: an event is scanned for a connection exactly if it was still stored when the cursor passed it. */
module JournalCoverage {
  import opened Prelude
  import opened RetainedTable
  import opened PersonEvents
  import opened DeliveryJournal
  import opened JournalInvariant
  import opened JournalTrace
  import opened JournalForwarding
  import JournalGates

  // ---------------------------------------------------------------- the producer

  /** The id taken by a recorded event is stored right after, whatever retention drops. */
  lemma RecordedIsStored(s: Source, camera: Camera, frame: Frame, emits: bool)
    ensures var t := Recorded(s, camera, frame, emits);
            t.next == s.next || (t.next == s.next + 1 && (SourceSound(s) ==> s.next in t.events))
  {
    var grown := s.events[s.next := PersonEvent(camera, frame)];
    if SourceSound(s) {
      assert Newer(grown.Keys, s.next) == {};
    }
  }

  lemma OnlyRecordingAppends(w: World, a: Action)
    requires !a.Recording?
    ensures Step(w, a).source.next == w.source.next && Step(w, a).source.events == w.source.events
  {
    hide Create, Update, Delete, Retry, ShakeHands, Restart, Capture, Pull, Respond, Ingest;
  }

  lemma RunStep(actions: seq<Action>)
    ensures if actions == [] then Run(actions) == INITIAL
            else Run(actions) == Step(Run(actions[..|actions| - 1]), actions[|actions| - 1])
  {
  }

  /** Every id given out was stored at some moment of the run. */
  lemma {:induction false} OnceStored(actions: seq<Action>, id: EventId) returns (l: nat)
    requires 1 <= id < Run(actions).source.next
    ensures l <= |actions| && id in Run(actions[..l]).source.events
  {
    hide Run, Step, TraceInv;
    RunStep(actions);
    if actions != [] {
      var init, a := actions[..|actions| - 1], actions[|actions| - 1];
      if id < Run(init).source.next {
        l := OnceStored(init, id);
        assert actions[..l] == init[..l];
      } else {
        l := |actions|;
        assert actions[..l] == actions;
        AlwaysSound(init);
        StepAppends(Run(init), a);
      }
    }
  }

  /** The ids a step gives out: none, or the next one, and that is stored. */
  lemma StepAppends(w: World, a: Action)
    requires TraceInv(w)
    ensures var t := Step(w, a).source; t.next == w.source.next || (t.next == w.source.next + 1 && w.source.next in t.events)
  {
    hide Recorded, SourceSound, Inv, ForwardingMirrors, RowsMirror, LogSound;
    if a.Recording? {
      RecordedIsStored(w.source, a.camera, a.frame, a.emits);
    } else {
      OnlyRecordingAppends(w, a);
    }
  }

  // ---------------------------------------------------------------- the other steps

  /** Without a capture nothing is scanned, no cursor moves, and new connections start at 0. */
  ghost predicate NothingPassed(w: World, w': World) {
    && w.log <= w'.log && (forall k | |w.log| <= k < |w'.log| :: !w'.log[k].Scanned?)
    && forall c | c in w'.journal.connections ::
         w'.journal.connections[c].cursor
         == if c in w.journal.connections then w.journal.connections[c].cursor else 0
  }

  lemma UpdatingPassesNothing(w: World, c: ConnectionId, changes: Changes)
    ensures NothingPassed(w, Step(w, Updating(c, changes)))
  {
    hide StillGranted, LeasesWithout, AsksNothing;
  }

  lemma AdministrationPassesNothing(w: World, a: Action)
    requires forall c | c in w.journal.connections :: c in w.used
    requires a.Creating? || a.Deleting? || a.Retrying? || a.Shaking? || a.Restarting?
    ensures NothingPassed(w, Step(w, a))
  {
    hide LeasesWithout, DeliveriesOfOthers, ReceivedOfOthers, AttemptsReset;
  }

  lemma PullingPassesNothing(w: World, c: ConnectionId, token: Token, limit: int, known: set<Camera>, now: nat)
    ensures NothingPassed(w, Step(w, Pulling(c, token, limit, known, now)))
  {
    hide PullRows, Deliverable;
    if Pull(w.journal, c, token, limit, known, now).Ok? {
      var rows := Deliverable(w.journal.deliveries, c, 0, w.journal.nextDelivery, SCAN);
      PullLeavesConnections(w.journal, c, rows, limit, known, now);
      JournalGates.PullingWorks(w.journal, c, rows, limit, known, now);
    }
  }

  lemma AnswersPassNothing(w: World, a: Action)
    requires a.Responding? || a.Ingesting? || a.Recording? || a.Configuring?
    ensures NothingPassed(w, Step(w, a))
  {
    hide FindRow, Recorded, Retained, Machine;
  }

  lemma OnlyCapturesPass(w: World, a: Action)
    requires !a.Capturing? && TraceInv(w)
    ensures NothingPassed(w, Step(w, a))
  {
    hide NothingPassed, Step, Inv, SourceSound, RowsMirror, LogSound, WasScanned;
    match a {
      case Updating(c, changes) => UpdatingPassesNothing(w, c, changes);
      case Pulling(c, token, limit, known, now) => PullingPassesNothing(w, c, token, limit, known, now);
      case Responding(_, _, _, _, _, _, _) => AnswersPassNothing(w, a);
      case Ingesting(_, _, _, _, _, _) => AnswersPassNothing(w, a);
      case Recording(_, _, _) => AnswersPassNothing(w, a);
      case Configuring(_, _) => AnswersPassNothing(w, a);
      case _ => AdministrationPassesNothing(w, a);
    }
  }

  lemma ScannedBefore(w: World, w': World, c: ConnectionId, id: EventId)
    requires NothingPassed(w, w')
    ensures WasScanned(w'.log, c, id) <==> WasScanned(w.log, c, id)
  {
    if WasScanned(w.log, c, id) {
      WasScannedKept(w.log, w'.log, c, id);
    }
    if WasScanned(w'.log, c, id) {
      var k :| 0 <= k < |w'.log| && ScanOf(w'.log[k], c, id);
      assert k < |w.log| && ScanOf(w.log[k], c, id);
    }
  }

  // ---------------------------------------------------------------- captures

  /** What a capture scans for `c` among the ids it has behind it afterwards. */
  lemma CapturePasses(actions: seq<Action>, order: seq<ConnectionId>, known: set<Camera>, c: ConnectionId, id: EventId)
    requires var w, w' := Run(actions), Step(Run(actions), Capturing(order, known));
             && c in w'.journal.connections && id <= w'.journal.connections[c].cursor
    ensures var w, w' := Run(actions), Step(Run(actions), Capturing(order, known));
            && c in w.journal.connections
            && (if id <= w.journal.connections[c].cursor then
                  WasScanned(w'.log, c, id) <==> WasScanned(w.log, c, id)
                else WasScanned(w'.log, c, id) <==> id in w.source.events)
  {
    hide Run, Step, TraceInv, WasScanned;
    var a := Capturing(order, known);
    var w, w' := Run(actions), Step(Run(actions), a);
    CaptureOfAll(w, order, known, c);
    AlwaysSound(actions);
    StepKeepsTrace(w, a);
    Frontier(w, c);
    Frontier(w', c);
    if WasScanned(w.log, c, id) {
      WasScannedKept(w.log, w'.log, c, id);
    } else if WasScanned(w'.log, c, id) {
      NewScanIsStored(actions, order, known, c, id);
    }
  }

  lemma CaptureOfAll(w: World, order: seq<ConnectionId>, known: set<Camera>, c: ConnectionId)
    requires c in Step(w, Capturing(order, known)).journal.connections
    ensures var w' := Step(w, Capturing(order, known));
            w.log <= w'.log && w'.source == w.source && c in w.journal.connections
  {
    hide Capture;
    CaptureAddsNobody(w.journal, order, w.source, known);
  }

  lemma {:induction false} CaptureAddsNobody(j: Journal, order: seq<ConnectionId>, source: Source, known: set<Camera>)
    ensures Capture(j, order, source, known).journal.connections.Keys == j.connections.Keys
    decreases |order|
  {
    hide CaptureFor;
    if order != [] {
      TurnKeepsConnections(j, order[0], source, known);
      CaptureAddsNobody(CaptureFor(j, order[0], source, known).journal, order[1..], source, known);
    }
  }

  lemma Frontier(w: World, c: ConnectionId)
    requires TraceInv(w) && c in w.journal.connections
    ensures var cursor := w.journal.connections[c].cursor;
            && (forall id: EventId | WasScanned(w.log, c, id) :: id <= cursor)
            && (forall id | id in w.source.events && id <= cursor :: WasScanned(w.log, c, id))
            && cursor < w.source.next
  {
    forall id: EventId | WasScanned(w.log, c, id)
      ensures id <= w.journal.connections[c].cursor
    {
      var k :| 0 <= k < |w.log| && ScanOf(w.log[k], c, id);
    }
  }

  lemma NewScanIsStored(
      actions: seq<Action>, order: seq<ConnectionId>, known: set<Camera>, c: ConnectionId, id: EventId)
    requires var w, w' := Run(actions), Step(Run(actions), Capturing(order, known));
             w.log <= w'.log && !WasScanned(w.log, c, id) && WasScanned(w'.log, c, id)
    ensures id in Run(actions).source.events
  {
    hide Run, Step;
    var w, w' := Run(actions), Step(Run(actions), Capturing(order, known));
    assert forall i | 0 <= i < |w.log| :: w'.log[i] == w.log[i] && !ScanOf(w'.log[i], c, id);
    var k :| 0 <= k < |w'.log| && ScanOf(w'.log[k], c, id);
    EligibleIsEnqueued(actions, order, known, k);
  }

  // ---------------------------------------------------------------- the theorem

  /** The cursor of `c` passes `id` between these two worlds. */
  ghost predicate Passes(w: World, w': World, c: ConnectionId, id: EventId) {
    && c in w.journal.connections && w.journal.connections[c].cursor < id
    && c in w'.journal.connections && id <= w'.journal.connections[c].cursor
  }

  /**
   Over any run, for a connection and any id at or behind its cursor: one capture moved the cursor
   past that id, the event had been stored by then, and it was scanned exactly if it was stored
   still. So an event that is missed had been recorded and pruned before the cursor reached it.
   */
  lemma {:induction false} PassedExactly(actions: seq<Action>, c: ConnectionId, id: EventId) returns (l: nat, m: nat)
    requires c in Run(actions).journal.connections && 1 <= id <= Run(actions).journal.connections[c].cursor
    ensures l <= m < |actions| && actions[m].Capturing?
    ensures id in Run(actions[..l]).source.events
    ensures Passes(Run(actions[..m]), Run(actions[..m + 1]), c, id)
    ensures WasScanned(Run(actions).log, c, id) <==> id in Run(actions[..m]).source.events
  {
    hide Step, TraceInv, WasScanned, NothingPassed;
    if actions != [] {
      var init, a := actions[..|actions| - 1], actions[|actions| - 1];
      var w := Run(init);
      assert Run(actions) == Step(w, a);
      if a.Capturing? {
        CapturePasses(init, a.order, a.known, c, id);
      } else {
        AlwaysSound(init);
        OnlyCapturesPass(w, a);
        CursorsStand(w, Step(w, a), c, id);
      }
      if id <= w.journal.connections[c].cursor {
        l, m := PassedExactly(init, c, id);
        assert actions[..l] == init[..l] && actions[..m] == init[..m] && actions[..m + 1] == init[..m + 1];
      } else {
        m := |init|;
        assert actions[..m] == init && actions[..m + 1] == actions;
        l := StoredByThen(init, a.order, a.known, c, id);
        assert actions[..l] == init[..l];
      }
    }
  }

  lemma CursorsStand(w: World, w': World, c: ConnectionId, id: EventId)
    requires NothingPassed(w, w') && c in w'.journal.connections && 1 <= id <= w'.journal.connections[c].cursor
    ensures c in w.journal.connections && id <= w.journal.connections[c].cursor
    ensures WasScanned(w'.log, c, id) <==> WasScanned(w.log, c, id)
  {
    ScannedBefore(w, w', c, id);
  }

  lemma StoredByThen(
      actions: seq<Action>, order: seq<ConnectionId>, known: set<Camera>, c: ConnectionId, id: EventId)
    returns (l: nat)
    requires var w' := Step(Run(actions), Capturing(order, known));
             c in w'.journal.connections && 1 <= id <= w'.journal.connections[c].cursor
    ensures l <= |actions| && id in Run(actions[..l]).source.events
  {
    hide Run, Step, TraceInv;
    var w := Run(actions);
    AlwaysSound(actions);
    StepKeepsTrace(w, Capturing(order, known));
    CaptureOfAll(w, order, known, c);
    Frontier(Step(w, Capturing(order, known)), c);
    l := OnceStored(actions, id);
  }
}
