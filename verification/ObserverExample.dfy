/** Runs of the observer that reach both windows of its pipeline, and one that reconciles. */
module ObserverExample {
  import opened Prelude
  import opened ProcessObserver

  const LIMITS: Limits := Limits(4, map[1 := 2])
  const BORN: Key := Key(100, 5)
  const RECORD: Record := Record(BORN, 9, 1)

  /** One birth is captured and taken off the queue. */
  const CAPTURED: seq<Event> := [
    BirthNotification, OpenProcess(true), ReadIdentity(Some(BORN)), CheckBirth, QueryImage(Some(9)), Publish, TakeNext]

  lemma RunUpTo(events: seq<Event>, k: nat)
    requires k < |events|
    ensures Run(LIMITS, events[..k + 1]) == Step(LIMITS, Run(LIMITS, events[..k]), events[k])
  {
    assert events[..k + 1] == events[..k] + [events[k]];
    RunSnoc(LIMITS, events[..k], events[k]);
  }

  /** The state just before the record is published: its handle is still the capture thread's own. */
  lemma BirthSeen()
    ensures var s := Run(LIMITS, CAPTURED[..5]);
            && s.capture == Publishing(RECORD, 2) && s.admission.Waiting? && !s.stop && !s.error
            && s.evidence == INITIAL.evidence
  {
    hide Run;
    NothingRun();
    RunUpTo(CAPTURED, 0);
    RunUpTo(CAPTURED, 1);
    RunUpTo(CAPTURED, 2);
    RunUpTo(CAPTURED, 3);
    RunUpTo(CAPTURED, 4);
  }

  lemma NothingRun()
    ensures Run(LIMITS, CAPTURED[..0]) == INITIAL
  {
  }

  lemma Taken()
    ensures var s := Run(LIMITS, CAPTURED);
            && s.admission == Hashing(RECORD) && !s.stop && !s.error
            && s.evidence == Evidence([RECORD], [], Some(RECORD), [], None)
  {
    hide Run;
    BirthSeen();
    RunUpTo(CAPTURED, 5);
    RunUpTo(CAPTURED, 6);
    assert CAPTURED[..7] == CAPTURED;
  }

  /** The first window, without a stop: the birth is admitted and still shown as being validated. */
  lemma AdmittedAndShown()
    ensures var s := Run(LIMITS, CAPTURED + [Hash(Some(1))] + [Admit]);
            && s.admission == ClearingAdmitted(RECORD) && !s.stop && !s.error
            && s.evidence == Evidence([RECORD], [], Some(RECORD), [Birth(BORN, 1)], None)
            && Observed(s.evidence) == [BORN, BORN] && RecordKeys(s.evidence.reservations) == [BORN]
  {
    hide Run;
    Taken();
    RunSnoc(LIMITS, CAPTURED, Hash(Some(1)));
    RunSnoc(LIMITS, CAPTURED + [Hash(Some(1))], Admit);
    assert CountKind([], 1) == 0;
  }

  /** The second window, without a stop: the record is given up and the failure not yet published. */
  lemma GivenUpUnpublished()
    ensures var s := Run(LIMITS, CAPTURED + [Hash(None)] + [Clear]);
            && s.admission == AdmissionFailing && !s.stop && !s.error
            && s.evidence == Evidence([RECORD], [], None, [], Some(RECORD))
            && Observed(s.evidence) == [] && RecordKeys(s.evidence.reservations) == [BORN]
  {
    hide Run;
    Taken();
    RunSnoc(LIMITS, CAPTURED, Hash(None));
    RunSnoc(LIMITS, CAPTURED + [Hash(None)], Clear);
  }

  /** A run whose evidence reconciles, and whose `finish` leaves no error. */
  lemma ReconcilesOne()
    ensures var events := CAPTURED + [Hash(Some(1))] + [Admit] + [Clear];
            && Reconciled(LIMITS, Run(LIMITS, events), 1)
            && !Run(LIMITS, events + [Finish(1)]).error
  {
    hide Run;
    AdmittedAndShown();
    var admitted := CAPTURED + [Hash(Some(1))] + [Admit];
    RunSnoc(LIMITS, admitted, Clear);
    RunSnoc(LIMITS, admitted + [Clear], Finish(1));
  }
}
