/** Answers to handed-out deliveries: when one is accepted, and what submitting it again does. */
module JournalAnswers {
  import opened Prelude
  import opened RetainedTable
  import opened PersonEvents
  import opened DeliveryJournal
  import opened JournalInvariant
  import opened JournalTrace
  import opened JournalForwarding
  import JournalGates

  lemma InvIsOrdered(j: Journal)
    requires Inv(j)
    ensures InEventOrder(j.deliveries)
  {
  }

  /** A connection has at most one delivery of an event, so looking it up finds that one. */
  lemma FindUnique(deliveries: map<Sequence, Delivery>, past: Sequence, s: Sequence)
    requires InEventOrder(deliveries) && s in deliveries && s < past
    ensures Find(deliveries, deliveries[s].connection, deliveries[s].event, past) == Some(s)
  {
    var found := Find(deliveries, deliveries[s].connection, deliveries[s].event, past);
    assert found.Some? && found.value in deliveries;
  }

  /** Whether a delivery's camera is granted and known at the moment. */
  predicate InScope(j: Journal, c: ConnectionId, camera: Camera, known: set<Camera>) {
    c in j.connections && camera in j.connections[c].grants && camera in known
  }

  // ---------------------------------------------------------------- first answers

  /** What becomes of any answer to a delivery that is stored and not answered yet. */
  lemma FirstAnswerExact(
      j: Journal, c: ConnectionId, token: Token, event: EventId, s: Sequence, matches: bool, response: Response,
      known: set<Camera>, now: int)
    requires Inv(j) && PendingFor(j.deliveries, c, s) && j.deliveries[s].event == event
    requires Machine(j, c, token, Neural, now) == None
    ensures var r := Respond(j, c, token, event, matches, response, known, now);
            if j.deliveries[s].attempt == 0 then r == Err(Mismatch)
            else if !InScope(j, c, j.deliveries[s].camera, known) then r == Err(CameraForbidden)
            else if !matches then r == Err(Mismatch)
            else r.Ok? && r.value.log == [Accepted(c, s, response, false)]
  {
    hide FindRow;
    InvIsOrdered(j);
    SequenceKnown(j, s);
    FindUnique(j.deliveries, j.nextDelivery, s);
  }

  /**
   Over any run: a well-formed answer in scope to a stored, unanswered delivery is accepted exactly
   when the delivery was handed out since the last retry of its connection. An answer to an earlier
   hand-out is otherwise refused as uncorrelated, although the delivery was sent.
   */
  lemma AcceptedExactlySinceRetry(
      actions: seq<Action>, s: Sequence, token: Token, response: Response, known: set<Camera>, now: int)
    requires var w := Run(actions);
             && s in w.journal.deliveries
             && var d := w.journal.deliveries[s];
                && d.response.None? && Machine(w.journal, d.connection, token, Neural, now) == None
                && InScope(w.journal, d.connection, d.camera, known)
    ensures var w := Run(actions);
            var d := w.journal.deliveries[s];
            var r := Respond(w.journal, d.connection, token, d.event, true, response, known, now);
            && (r.Ok? <==> HandOuts(w.log, d.connection, s) >= 1)
            && (r.Err? ==> r == Err(Mismatch))
  {
    hide Run;
    var w := Run(actions);
    var d := w.journal.deliveries[s];
    AlwaysSound(actions);
    assert RowMirrors(w, s);
    FirstAnswerExact(w.journal, d.connection, token, d.event, s, true, response, known, now);
  }

  // ---------------------------------------------------------------- answers submitted again

  /** No answered row is older than retention allows. */
  predicate WithinRetention(deliveries: map<Sequence, Delivery>) {
    forall s | s in Answered(deliveries) :: AmongNewest(deliveries.Keys, s, MAX_RETAINED)
  }

  lemma RetentionIdle(deliveries: map<Sequence, Delivery>)
    ensures Retained(deliveries) == deliveries <==> WithinRetention(deliveries)
  {
    if Retained(deliveries) == deliveries {
      forall s | s in Answered(deliveries)
        ensures AmongNewest(deliveries.Keys, s, MAX_RETAINED)
      {
        assert s in Retained(deliveries);
      }
    }
  }

  /** What retention leaves is all within the bound. */
  lemma RetainedIsWithin(deliveries: map<Sequence, Delivery>)
    ensures WithinRetention(Retained(deliveries))
  {
    var once := Retained(deliveries);
    forall s | s in Answered(once)
      ensures AmongNewest(once.Keys, s, MAX_RETAINED)
    {
      SubsetCount(Newer(once.Keys, s), Newer(deliveries.Keys, s));
    }
  }

  /**
   Submitting an answer again, at any time: while the answered row is stored, the same response is
   a duplicate and another one a conflict. The duplicate is also an occasion for retention: it
   changes nothing exactly when every answered row is among the newest 10,000, and it deletes the
   very row it is about exactly when that one is not.
   */
  lemma ResubmitExact(
      j: Journal, c: ConnectionId, token: Token, s: Sequence, again: Response, known: set<Camera>, now: int)
    requires Inv(j) && s in Answered(j.deliveries) && j.deliveries[s].connection == c
    requires Machine(j, c, token, Neural, now) == None
    ensures var d := j.deliveries[s];
            var r := Respond(j, c, token, d.event, true, again, known, now);
            if !InScope(j, c, d.camera, known) then r == Err(CameraForbidden)
            else if d.response != Some(again) then r == Err(Conflict)
            else
              && r == Ok(Effect(j.(deliveries := Retained(j.deliveries)), [Accepted(c, s, again, true)]))
              && (r.value.journal == j <==> WithinRetention(j.deliveries))
              && (s in r.value.journal.deliveries <==> AmongNewest(j.deliveries.Keys, s, MAX_RETAINED))
  {
    var d := j.deliveries[s];
    InvIsOrdered(j);
    SequenceKnown(j, s);
    AnsweredWasTried(j, s);
    RetentionIdle(j.deliveries);
    hide Inv, FindRow, InEventOrder, WithinRetention;
    FindUnique(j.deliveries, j.nextDelivery, s);
    assert j.deliveries[s := d.(response := d.response)] == j.deliveries;
    assert j.leases - {(c, s)} == j.leases;
  }

  lemma AnsweredWasTried(j: Journal, s: Sequence)
    requires Inv(j) && s in Answered(j.deliveries)
    ensures j.deliveries[s].attempt >= 1 && forall key | key in j.leases :: key.1 != s
  {
    assert DeliverySound(j, s);
  }

  /** Whatever a call accepted, right after it no answered row is too old: repeating it at once changes nothing more. */
  lemma SettledAfterAnswer(
      j: Journal, c: ConnectionId, token: Token, event: EventId, matches: bool, response: Response, known: set<Camera>,
      now: int)
    requires Respond(j, c, token, event, matches, response, known, now).Ok?
    ensures WithinRetention(Respond(j, c, token, event, matches, response, known, now).value.journal.deliveries)
  {
    var s := Find(j.deliveries, c, event, j.nextDelivery).value;
    RetainedIsWithin(j.deliveries[s := j.deliveries[s].(response := Some(response))]);
  }

  // ---------------------------------------------------------------- what an accepted answer was about

  /** Every accepted answer was for a delivery that had been queued for its connection. */
  ghost predicate AcceptancesQueued(w: World) {
    forall i | 0 <= i < |w.log| && w.log[i].Accepted? ::
      exists event: EventId :: QueuedFor(w.log, w.log[i].sequence, w.log[i].connection, event)
  }

  lemma QueuedForKept(log: seq<Happening>, longer: seq<Happening>, s: Sequence, c: ConnectionId, event: EventId)
    requires log <= longer && QueuedFor(log, s, c, event)
    ensures QueuedFor(longer, s, c, event)
  {
    var k :| 0 <= k < |log| && ScanOf(log[k], c, event) && log[k].enqueued == Some(s);
    assert longer[k] == log[k];
  }

  lemma SameAcceptances(w: World, w': World)
    requires AcceptancesQueued(w) && w.log <= w'.log
    requires forall i | |w.log| <= i < |w'.log| && w'.log[i].Accepted? ::
               exists event: EventId :: QueuedFor(w'.log, w'.log[i].sequence, w'.log[i].connection, event)
    ensures AcceptancesQueued(w')
  {
    hide QueuedFor;
    forall i | 0 <= i < |w.log| && w'.log[i].Accepted?
      ensures exists event: EventId :: QueuedFor(w'.log, w'.log[i].sequence, w'.log[i].connection, event)
    {
      assert w'.log[i] == w.log[i];
      var event: EventId :| QueuedFor(w.log, w.log[i].sequence, w.log[i].connection, event);
      QueuedForKept(w.log, w'.log, w.log[i].sequence, w.log[i].connection, event);
    }
  }

  /** Only `respond` accepts anything. */
  lemma OthersAcceptNothing(w: World, a: Action)
    requires !a.Responding?
    ensures w.log <= Step(w, a).log
    ensures forall i | |w.log| <= i < |Step(w, a).log| :: !Step(w, a).log[i].Accepted?
  {
    hide Capture, PullRows, Deliverable, FindRow, Recorded, Edited, StillGranted, LeasesWithout;
    if a.Capturing? {
      JournalGates.CapturingWorks(w.journal, a.order, w.source, a.known);
      AllOfMore(w.log, Capture(w.journal, a.order, w.source, a.known).log, Step(w, a).log);
    } else if a.Pulling? {
      if Pull(w.journal, a.c, a.token, a.limit, a.known, a.now).Ok? {
        var rows := Deliverable(w.journal.deliveries, a.c, 0, w.journal.nextDelivery, SCAN);
        JournalGates.PullingWorks(w.journal, a.c, rows, a.limit, a.known, a.now);
        AllOfMore(w.log, PullRows(w.journal, a.c, rows, a.limit, a.known, a.now).log, Step(w, a).log);
      }
    }
  }

  lemma AllOfMore(log: seq<Happening>, more: seq<Happening>, longer: seq<Happening>)
    requires longer == log + more && forall h | h in more :: !h.Accepted?
    ensures forall i | |log| <= i < |longer| :: !longer[i].Accepted?
  {
    forall i | |log| <= i < |longer|
      ensures !longer[i].Accepted?
    {
      assert longer[i] == more[i - |log|] && more[i - |log|] in more;
    }
  }

  lemma AnswerWasQueued(
      w: World, c: ConnectionId, token: Token, event: EventId, matches: bool, response: Response, known: set<Camera>,
      now: nat)
    requires AcceptancesQueued(w) && RowsQueued(w)
    ensures AcceptancesQueued(Step(w, Responding(c, token, event, matches, response, known, now)))
  {
    hide AcceptancesQueued, QueuedFor, FindRow, Retained, Machine;
    var w' := Step(w, Responding(c, token, event, matches, response, known, now));
    if w'.log != w.log {
      var s := Find(w.journal.deliveries, c, event, w.journal.nextDelivery).value;
      assert w.log <= w'.log && DeliveryKey(w.journal.deliveries[s]) == (c, event);
      QueuedForKept(w.log, w'.log, s, c, event);
    }
    SameAcceptances(w, w');
  }

  lemma {:induction false} AlwaysAcceptedQueued(actions: seq<Action>)
    ensures AcceptancesQueued(Run(actions))
  {
    if actions != [] {
      hide AcceptancesQueued, RowsQueued, Step;
      var init, a := actions[..|actions| - 1], actions[|actions| - 1];
      AlwaysAcceptedQueued(init);
      if a.Responding? {
        AlwaysQueued(init);
        AnswerWasQueued(Run(init), a.c, a.token, a.event, a.matches, a.response, a.known, a.now);
      } else {
        OthersAcceptNothing(Run(init), a);
        SameAcceptances(Run(init), Run(actions));
      }
    }
  }

  /** Every accepted answer is about one event: its delivery was queued for that and for its connection alone. */
  lemma AcceptedForOne(actions: seq<Action>, i: nat) returns (event: EventId)
    requires var log := Run(actions).log; i < |log| && log[i].Accepted?
    ensures var log := Run(actions).log;
            && QueuedFor(log, log[i].sequence, log[i].connection, event)
            && (forall b, other :: QueuedFor(log, log[i].sequence, b, other)
                                   ==> b == log[i].connection && other == event)
  {
    hide Run, QueuedFor;
    var log := Run(actions).log;
    AlwaysAcceptedQueued(actions);
    event :| QueuedFor(log, log[i].sequence, log[i].connection, event);
    forall b: ConnectionId, other: EventId | QueuedFor(log, log[i].sequence, b, other)
      ensures b == log[i].connection && other == event
    {
      OneEvent(actions, log[i].sequence, log[i].connection, event, b, other);
    }
  }

  /**
   Over any run: an accepted answer was about one event, and submitting any answer for that event
   again is a duplicate or a conflict while the row is stored, and refused as uncorrelated for good
   once it is gone.
   */
  lemma ResubmitOverRuns(
      actions: seq<Action>, i: nat, token: Token, again: Response, known: set<Camera>, now: int)
    returns (event: EventId)
    requires var w := Run(actions);
             && i < |w.log| && w.log[i].Accepted?
             && Machine(w.journal, w.log[i].connection, token, Neural, now) == None
    ensures var log := Run(actions).log;
            && QueuedFor(log, log[i].sequence, log[i].connection, event)
            && (forall b, other :: QueuedFor(log, log[i].sequence, b, other)
                                   ==> b == log[i].connection && other == event)
    ensures var w := Run(actions);
            var c, s, response := w.log[i].connection, w.log[i].sequence, w.log[i].response;
            var r := Respond(w.journal, c, token, event, true, again, known, now);
            if s !in w.journal.deliveries then r == Err(Mismatch)
            else if !InScope(w.journal, c, w.journal.deliveries[s].camera, known) then r == Err(CameraForbidden)
            else if again != response then r == Err(Conflict)
            else
              r == Ok(Effect(w.journal.(deliveries := Retained(w.journal.deliveries)), [Accepted(c, s, again, true)]))
  {
    hide Run, Respond, TraceInv, QueuedFor, InScope;
    var w := Run(actions);
    var c, s := w.log[i].connection, w.log[i].sequence;
    event := AcceptedForOne(actions, i);
    AlwaysSound(actions);
    AlwaysQueued(actions);
    if s in w.journal.deliveries {
      AnsweredAsLogged(w, i);
      var d := w.journal.deliveries[s];
      assert QueuedFor(w.log, s, d.connection, d.event);
      ResubmitExact(w.journal, c, token, s, again, known, now);
    } else {
      NothingFound(actions, s, c, event);
      UnknownMismatch(w.journal, c, token, event, again, known, now);
    }
  }

  lemma AnsweredAsLogged(w: World, i: nat)
    requires TraceInv(w) && i < |w.log| && w.log[i].Accepted? && w.log[i].sequence in w.journal.deliveries
    ensures Inv(w.journal) && w.journal.deliveries[w.log[i].sequence].response == Some(w.log[i].response)
  {
    assert RowMirrors(w, w.log[i].sequence);
    assert AcceptanceOf(w.log[i], w.log[i].sequence);
  }

  /** A sequence is queued for one connection and event only. */
  lemma OneEvent(actions: seq<Action>, s: Sequence, c: ConnectionId, event: EventId, b: ConnectionId, other: EventId)
    requires QueuedFor(Run(actions).log, s, c, event) && QueuedFor(Run(actions).log, s, b, other)
    ensures b == c && other == event
  {
    hide Run;
    var log := Run(actions).log;
    var i :| 0 <= i < |log| && ScanOf(log[i], c, event) && log[i].enqueued == Some(s);
    var k :| 0 <= k < |log| && ScanOf(log[k], b, other) && log[k].enqueued == Some(s);
    if i < k {
      ScannedInOrder(actions, i, k);
    } else if k < i {
      ScannedInOrder(actions, k, i);
    }
  }

  lemma NothingFound(actions: seq<Action>, s: Sequence, c: ConnectionId, event: EventId)
    requires var w := Run(actions); QueuedFor(w.log, s, c, event) && s !in w.journal.deliveries && RowsQueued(w)
    ensures Find(Run(actions).journal.deliveries, c, event, Run(actions).journal.nextDelivery).None?
  {
    hide Run, QueuedFor;
    var w := Run(actions);
    var found := Find(w.journal.deliveries, c, event, w.journal.nextDelivery);
    if found.Some? {
      assert QueuedFor(w.log, found.value, c, event);
      QueuedOnce(actions, s, found.value, c, event);
    }
  }

  lemma UnknownMismatch(
      j: Journal, c: ConnectionId, token: Token, event: EventId, again: Response, known: set<Camera>, now: int)
    requires Machine(j, c, token, Neural, now) == None && Find(j.deliveries, c, event, j.nextDelivery).None?
    ensures Respond(j, c, token, event, true, again, known, now) == Err(Mismatch)
  {
  }
}
