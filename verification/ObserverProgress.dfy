/**
 What the observer's threads get done: one birth from its notification to its reservation, one
 record from the queue to its admission, which steps are errors, and how a stopped observer ends.
 The statements speak of the state's own fields and of the environment's answers alone.
 */
module ObserverProgress {
  import opened Prelude
  import opened ProcessObserver

  // ---------------------------------------------------------------- runs that go on

  function After(limits: Limits, s: State, events: seq<Event>): State
    decreases |events|
  {
    if events == [] then s else After(limits, Step(limits, s, events[0]), events[1..])
  }

  lemma {:induction false} RunThen(limits: Limits, events: seq<Event>, later: seq<Event>)
    ensures Run(limits, events + later) == After(limits, Run(limits, events), later)
    decreases |later|
  {
    hide Step;
    if later == [] {
      assert events + later == events;
    } else {
      RunSnoc(limits, events, later[0]);
      RunThen(limits, events + [later[0]], later[1..]);
      assert events + later == events + [later[0]] + later[1..];
    }
  }

  lemma AfterFirst(limits: Limits, s: State, e: Event, rest: seq<Event>)
    ensures After(limits, s, [e] + rest) == After(limits, Step(limits, s, e), rest)
  {
    hide Step;
    assert ([e] + rest)[1..] == rest;
  }

  lemma AfterOne(limits: Limits, s: State, e: Event)
    ensures After(limits, s, [e]) == Step(limits, s, e)
  {
    hide Step;
    assert [e][1..] == [];
  }

  // ---------------------------------------------------------------- one birth, one record

  /** What the environment answers about one birth: the open, the creation time, the image and the close. */
  datatype Answers = Answers(found: bool, key: Option<Key>, image: Option<Image>, closed: bool)

  /** The capture thread's events for one birth; those it is not ready for change nothing. */
  function Conversation(a: Answers): seq<Event> {
    [BirthNotification, OpenProcess(a.found), ReadIdentity(a.key), CheckBirth, QueryImage(a.image), Publish,
     CloseLocal(a.closed)]
  }

  /** The state when `a` was asked so far as the birth's identity. */
  lemma IdentityAsked(limits: Limits, s: State, a: Answers)
    requires s.capture.Reading? && !s.stop
    ensures var t := Step(limits, Step(limits, Step(limits, s, BirthNotification), OpenProcess(a.found)), ReadIdentity(a.key));
            var h, port, job := s.natives.next, s.natives.port, s.natives.jobQuery;
            && t.evidence == s.evidence && t.admission == s.admission
            && t.captureDone == s.captureDone && t.admissionDone == s.admissionDone
            && (t.error <==> s.error || !a.found || a.key.None?)
            && (t.stop <==> !a.found || a.key.None?)
            && (!a.found ==>
                  t.capture == CaptureFailing && t.natives == s.natives.(calls := s.natives.calls + [Touch(port)]))
            && (a.found ==>
                  && t.natives == s.natives.(calls := s.natives.calls + [Touch(port)] + [Open(h)] + [Touch(h), Touch(job)],
                                             next := h + 1)
                  && (a.key.None? ==> t.capture == ClosingLocal(h, true))
                  && (a.key.Some? && |s.evidence.reservations| < limits.processes ==>
                        t.capture == Timed(|s.evidence.reservations| + 1, h, a.key.value))
                  && (a.key.Some? ==> t.capture.Timed? && t.capture.handle == h && t.capture.key == a.key.value))
  {
  }

  /** The duplicate test, the process limit and the image. */
  lemma BirthChecked(limits: Limits, s: State, a: Answers)
    requires s.capture.Timed? && !s.stop
    ensures var t := Step(limits, Step(limits, s, CheckBirth), QueryImage(a.image));
            var e, h, key := s.evidence, s.capture.handle, s.capture.key;
            var seen := exists r :: r in e.reservations && r.key == key;
            var unseen := !seen && |e.reservations| < limits.processes;
            && t.evidence == e && t.admission == s.admission
            && t.captureDone == s.captureDone && t.admissionDone == s.admissionDone
            && t.natives == s.natives.(calls := s.natives.calls + if unseen then [Touch(h)] else [])
            && (if unseen && a.image.Some? then
                  t.capture == Publishing(Record(key, a.image.value, s.capture.ordinal), h) && t.error == s.error && !t.stop
                else if seen then t.capture == ClosingLocal(h, false) && t.error == s.error && !t.stop
                else t.capture == ClosingLocal(h, true) && t.error && t.stop)
  {
  }

  /** The publication, or the close of a handle that stayed with the capture thread. */
  lemma BirthSettled(limits: Limits, s: State, a: Answers)
    requires (s.capture.Publishing? && !s.stop) || (s.capture.ClosingLocal? && (s.capture.raising ==> s.error && s.stop))
    ensures var t := Step(limits, Step(limits, s, Publish), CloseLocal(a.closed));
            var e, h := s.evidence, s.capture.handle;
            && t.admission == s.admission && t.captureDone == s.captureDone && t.admissionDone == s.admissionDone
            && (s.capture.Publishing? ==>
                  && t.evidence == e.(reservations := e.reservations + [s.capture.record],
                                      pending := e.pending + [s.capture.record])
                  && t.natives == s.natives.(handles := s.natives.handles + [h])
                  && t.capture == Reading && t.error == s.error && t.stop == s.stop)
            && (s.capture.ClosingLocal? ==>
                  && t.evidence == e && t.natives == s.natives.(calls := s.natives.calls + [Close(h)])
                  && (if a.closed && !s.capture.raising then t.capture == Reading && t.error == s.error && t.stop == s.stop
                      else t.capture == CaptureFailing && t.error && t.stop))
  {
  }

  /** Both, from the creation time on. */
  lemma BirthDecided(limits: Limits, s: State, a: Answers)
    requires s.capture.Timed? && !s.stop
    ensures var t := Step(limits, Step(limits, Step(limits, Step(limits, s, CheckBirth), QueryImage(a.image)), Publish),
                          CloseLocal(a.closed));
            var e, h, key := s.evidence, s.capture.handle, s.capture.key;
            var seen := exists r :: r in e.reservations && r.key == key;
            var unseen := !seen && |e.reservations| < limits.processes;
            && t.admission == s.admission && t.captureDone == s.captureDone && t.admissionDone == s.admissionDone
            && (if unseen && a.image.Some? then
                  var r := Record(key, a.image.value, s.capture.ordinal);
                  && t.evidence == e.(reservations := e.reservations + [r], pending := e.pending + [r])
                  && t.natives == s.natives.(calls := s.natives.calls + [Touch(h)], handles := s.natives.handles + [h])
                  && t.capture == Reading && t.error == s.error && !t.stop
                else
                  && t.evidence == e
                  && t.natives == s.natives.(calls := s.natives.calls + (if unseen then [Touch(h)] else []) + [Close(h)])
                  && (if seen && a.closed then t.capture == Reading && t.error == s.error && !t.stop
                      else t.capture == CaptureFailing && t.error && t.stop))
  {
    hide Step;
    BirthChecked(limits, s, a);
    BirthSettled(limits, Step(limits, Step(limits, s, CheckBirth), QueryImage(a.image)), a);
  }

  lemma Asked(limits: Limits, s: State, a: Answers)
    ensures After(limits, s, Conversation(a))
            == Step(limits, Step(limits, Step(limits, Step(limits,
                 Step(limits, Step(limits, Step(limits, s, BirthNotification), OpenProcess(a.found)), ReadIdentity(a.key)),
                 CheckBirth), QueryImage(a.image)), Publish), CloseLocal(a.closed))
  {
    hide Step, After;
    var s1 := Step(limits, s, BirthNotification);
    var s2 := Step(limits, s1, OpenProcess(a.found));
    var s3 := Step(limits, s2, ReadIdentity(a.key));
    var s4 := Step(limits, s3, CheckBirth);
    var s5 := Step(limits, s4, QueryImage(a.image));
    var s6 := Step(limits, s5, Publish);
    var all := Conversation(a);
    assert all == [all[0]] + all[1..] && all[1..] == [all[1]] + all[2..] && all[2..] == [all[2]] + all[3..];
    assert all[3..] == [all[3]] + all[4..] && all[4..] == [all[4]] + all[5..] && all[5..] == [all[5]] + all[6..];
    assert all[6..] == [all[6]];
    AfterFirst(limits, s, all[0], all[1..]);
    AfterFirst(limits, s1, all[1], all[2..]);
    AfterFirst(limits, s2, all[2], all[3..]);
    AfterFirst(limits, s3, all[3], all[4..]);
    AfterFirst(limits, s4, all[4], all[5..]);
    AfterFirst(limits, s5, all[5], all[6..]);
    AfterOne(limits, s6, all[6]);
  }

  /**
   One birth seen by an observer that was not stopped. It is reserved, numbered and queued, and its
   handle registered, exactly if the process opened and belongs to the job, no reservation has its
   key, the limit is not reached and its image could be read. A birth seen before only closes its
   handle. In every other case the thread is on its way out with the error published, nothing was
   reserved, and a handle that was opened was closed.
   */
  lemma BirthReserved(limits: Limits, events: seq<Event>, a: Answers)
    requires Run(limits, events).capture.Reading? && !Run(limits, events).stop
    ensures var s, t := Run(limits, events), Run(limits, events + Conversation(a));
            var e, n := s.evidence, s.natives;
            var seen := a.key.Some? && exists r :: r in e.reservations && r.key == a.key.value;
            var reserved := a.found && a.key.Some? && !seen && |e.reservations| < limits.processes && a.image.Some?;
            var repeated := a.found && seen && a.closed;
            && (reserved ==>
                  var r := Record(a.key.value, a.image.value, |e.reservations| + 1);
                  && t.evidence == e.(reservations := e.reservations + [r], pending := e.pending + [r])
                  && t.natives.handles == n.handles + [n.next])
            && (!reserved ==> t.evidence == e && t.natives.handles == n.handles)
            && t.natives.calls
               == n.calls + [Touch(n.port)]
                  + (if a.found then [Open(n.next)] + [Touch(n.next), Touch(n.jobQuery)] else [])
                  + (if a.found && a.key.Some? && !seen && |e.reservations| < limits.processes then [Touch(n.next)] else [])
                  + (if a.found && !reserved then [Close(n.next)] else [])
            && t.natives.next == n.next + (if a.found then 1 else 0)
            && (if reserved || repeated then t.capture == Reading && t.error == s.error && !t.stop
                else t.capture == CaptureFailing && t.error && t.stop)
            && t.admission == s.admission && t.captureDone == s.captureDone && t.admissionDone == s.admissionDone
  {
    hide Step, Run, After;
    var s := Run(limits, events);
    RunThen(limits, events, Conversation(a));
    Asked(limits, s, a);
    IdentityAsked(limits, s, a);
    var t := Step(limits, Step(limits, Step(limits, s, BirthNotification), OpenProcess(a.found)), ReadIdentity(a.key));
    if t.capture.Timed? {
      BirthDecided(limits, t, a);
    } else {
      GivenUp(limits, t, a);
    }
  }

  /** Past a failure the rest of the conversation finds nobody to answer, but for the close of the handle. */
  lemma GivenUp(limits: Limits, s: State, a: Answers)
    requires s.capture == CaptureFailing || (s.capture.ClosingLocal? && s.capture.raising && s.error && s.stop)
    ensures var t := Step(limits, Step(limits, Step(limits, Step(limits, s, CheckBirth), QueryImage(a.image)), Publish),
                          CloseLocal(a.closed));
            if s.capture == CaptureFailing then t == s
            else
              && t == s.(natives := t.natives, capture := CaptureFailing)
              && t.natives == s.natives.(calls := s.natives.calls + [Close(s.capture.handle)])
  {
  }

  /** How many admitted births are of this class. */
  lemma {:induction false} CountsClass(births: seq<Birth>, kind: Kind)
    ensures CountKind(births, kind) == |set i | 0 <= i < |births| && births[i].kind == kind|
  {
    var all := set i | 0 <= i < |births| && births[i].kind == kind;
    if births != [] {
      var front := births[..|births| - 1];
      CountsClass(front, kind);
      var before := set i | 0 <= i < |front| && front[i].kind == kind;
      assert all == before + (if births[|births| - 1].kind == kind then {|births| - 1} else {});
    }
  }

  /** The admission thread's events for one record, with what it hashed to and a stop that may come meanwhile. */
  function Admission(kind: Option<Kind>, cancelled: bool): seq<Event> {
    [TakeNext, Hash(kind)] + (if cancelled then [Cancel] else []) + [Admit, Clear]
  }

  lemma Admitting(limits: Limits, s: State, kind: Option<Kind>, cancelled: bool)
    ensures var h := Step(limits, Step(limits, s, TakeNext), Hash(kind));
            After(limits, s, Admission(kind, cancelled))
            == Step(limits, Step(limits, if cancelled then Step(limits, h, Cancel) else h, Admit), Clear)
  {
    hide Step, After;
    var s1 := Step(limits, s, TakeNext);
    var s2 := Step(limits, s1, Hash(kind));
    var s3 := if cancelled then Step(limits, s2, Cancel) else s2;
    var rest := [Admit, Clear];
    assert Admission(kind, cancelled) == [TakeNext] + ([Hash(kind)] + (if cancelled then [Cancel] + rest else rest));
    AfterFirst(limits, s, TakeNext, [Hash(kind)] + (if cancelled then [Cancel] + rest else rest));
    AfterFirst(limits, s1, Hash(kind), if cancelled then [Cancel] + rest else rest);
    if cancelled {
      AfterFirst(limits, s2, Cancel, rest);
    }
    assert rest == [Admit] + [Clear];
    AfterFirst(limits, s3, Admit, [Clear]);
    AfterOne(limits, Step(limits, s3, Admit), Clear);
  }

  lemma RecordHashed(limits: Limits, s: State, kind: Option<Kind>)
    requires s.admission.Waiting? && !s.stop && s.evidence.pending != []
    ensures var r := s.evidence.pending[0];
            Step(limits, Step(limits, s, TakeNext), Hash(kind))
            == s.(evidence := s.evidence.(pending := s.evidence.pending[1..], validating := Some(r)),
                  admission := if kind.None? then ClearingDropped(r, true) else Classified(r, kind.value))
  {
  }

  lemma AdmissionSteps(limits: Limits, s: State, kind: Option<Kind>, cancelled: bool)
    requires s.admission.Waiting? && !s.stop && s.evidence.pending != []
    ensures var h := Step(limits, Step(limits, s, TakeNext), Hash(kind));
            var t := Step(limits, Step(limits, if cancelled then Step(limits, h, Cancel) else h, Admit), Clear);
            var e, r := s.evidence, s.evidence.pending[0];
            var fits := kind.Some? && kind.value in limits.caps && CountKind(e.births, kind.value) < limits.caps[kind.value];
            var admitted := fits && !cancelled;
            && t.evidence == e.(pending := e.pending[1..], validating := None,
                                births := e.births + (if admitted then [Birth(r.key, kind.value)] else []),
                                lost := if admitted then e.lost else Some(r))
            && t.admission == (if admitted || (cancelled && kind.Some?) then Waiting else AdmissionFailing)
            && t.error == (s.error || cancelled) && t.stop == cancelled
            && t.natives == s.natives && t.capture == s.capture
            && t.captureDone == s.captureDone && t.admissionDone == s.admissionDone
  {
    hide TakeNextStep, HashStep, CountKind;
    RecordHashed(limits, s, kind);
  }

  /**
   One queued record and an admission thread that was waiting for it. It is admitted exactly if its
   image hashed to a class whose cap was not reached and no stop came meanwhile; it is off the queue
   and no longer shown in any case, and a record that is not admitted is given up for good. Without
   a stop that is a failure.
   */
  lemma RecordAdmitted(limits: Limits, events: seq<Event>, kind: Option<Kind>, cancelled: bool)
    requires Run(limits, events).admission.Waiting? && !Run(limits, events).stop
    requires Run(limits, events).evidence.pending != []
    ensures var s, t := Run(limits, events), Run(limits, events + Admission(kind, cancelled));
            var e, r := s.evidence, s.evidence.pending[0];
            var admitted :=
              && !cancelled && kind.Some? && kind.value in limits.caps
              && |set i | 0 <= i < |e.births| && e.births[i].kind == kind.value| < limits.caps[kind.value];
            && t.evidence.reservations == e.reservations && t.evidence.pending == e.pending[1..]
            && t.evidence.validating.None?
            && t.evidence.births == (if admitted then e.births + [Birth(r.key, kind.value)] else e.births)
            && t.evidence.lost == (if admitted then e.lost else Some(r))
            && t.admission == (if admitted || (cancelled && kind.Some?) then Waiting else AdmissionFailing)
            && t.error == (s.error || cancelled) && t.stop == cancelled
            && t.natives == s.natives && t.capture == s.capture
  {
    hide Step, Run, After, CountKind;
    var s := Run(limits, events);
    RunThen(limits, events, Admission(kind, cancelled));
    Admitting(limits, s, kind, cancelled);
    AdmissionSteps(limits, s, kind, cancelled);
    if kind.Some? {
      CountsClass(s.evidence.births, kind.value);
    }
  }

  // ---------------------------------------------------------------- the two loops

  /**
   One turn of either loop. The capture thread leaves for a stop, a quit packet or a failed read, and
   otherwise reads on; it touches the port unless stopped. The admission thread leaves for a stop, or
   for an empty queue that nobody fills any more, and otherwise waits or takes the oldest record.
   */
  lemma LoopsExact(limits: Limits, events: seq<Event>, e: Event)
    requires e.NoNotification? || e.QuitNotification? || e.ReadFailed? || e.TakeNext?
    ensures var s, t := Run(limits, events), Run(limits, events + [e]);
            && (s.capture == Reading && !e.TakeNext? ==>
                  t == s.(natives := s.natives.(calls := s.natives.calls + if s.stop then [] else [Touch(s.natives.port)]),
                          capture := if s.stop || e.QuitNotification? then CaptureFinally
                                     else if e.ReadFailed? then CaptureFailing else Reading))
            && (s.admission == Waiting && e.TakeNext? ==>
                  if s.stop || (s.evidence.pending == [] && s.captureDone) then t == s.(admission := AdmissionFinally)
                  else if s.evidence.pending == [] then t == s
                  else
                    t == s.(evidence := s.evidence.(pending := s.evidence.pending[1..], validating := Some(s.evidence.pending[0])),
                            admission := Hashing(s.evidence.pending[0])))
  {
    hide Run;
    RunSnoc(limits, events, e);
  }

  predicate AdmissionOver(s: State) {
    s.admission == AdmissionFinally || s.admission == AdmissionReleasing || s.admission == AdmissionExited
  }

  /** Unless stopped, the admission thread is over only with the queue empty and the capture thread done. */
  ghost predicate Drained(s: State) {
    && (AdmissionOver(s) && !s.stop ==> s.evidence.pending == [] && s.captureDone)
    && (s.admission == AdmissionWaking ==> s.stop)
  }

  lemma CaptureKeepsDrained(limits: Limits, s: State, e: Event)
    requires Drained(s) && ThreadsKept(s)
    requires e.NoNotification? || e.QuitNotification? || e.ReadFailed? || e.BirthNotification? || e.OpenProcess?
             || e.ReadIdentity? || e.CheckBirth? || e.QueryImage? || e.CloseLocal?
    ensures Drained(Step(limits, s, e))
  {
  }

  lemma QueueKeepsDrained(limits: Limits, s: State, e: Event)
    requires Drained(s) && ThreadsKept(s)
    requires e.Publish? || e.TakeNext? || e.Hash? || e.Admit? || e.Clear? || e.Cancel? || e.Finish?
    ensures Drained(Step(limits, s, e))
  {
    hide CountKind, Reconciled;
  }

  lemma TailKeepsDrained(limits: Limits, s: State, e: Event)
    requires Drained(s) && ThreadsKept(s)
    requires e.CaptureFails? || e.CaptureWakes? || e.CaptureEnds? || e.CaptureReleases?
             || e.AdmissionFails? || e.AdmissionWakes? || e.AdmissionEnds? || e.AdmissionReleases?
             || e.OwnerWakes? || e.OwnerReleases?
    ensures Drained(Step(limits, s, e))
  {
    hide Wake, Release;
    WakingKeepsThreads(s);
    WakingFramesEvidence(s);
  }

  lemma StepKeepsDrained(limits: Limits, s: State, e: Event)
    requires Drained(s) && ThreadsKept(s)
    ensures Drained(Step(limits, s, e))
  {
    hide Step, Drained, ThreadsKept;
    if e.Publish? || e.TakeNext? || e.Hash? || e.Admit? || e.Clear? || e.Cancel? || e.Finish? {
      QueueKeepsDrained(limits, s, e);
    } else if e.NoNotification? || e.QuitNotification? || e.ReadFailed? || e.BirthNotification? || e.OpenProcess?
              || e.ReadIdentity? || e.CheckBirth? || e.QueryImage? || e.CloseLocal? {
      CaptureKeepsDrained(limits, s, e);
    } else {
      TailKeepsDrained(limits, s, e);
    }
  }

  lemma {:induction false} RunKeepsDrained(limits: Limits, events: seq<Event>)
    ensures Drained(Run(limits, events))
  {
    hide Step, ThreadsKept;
    if events != [] {
      RunKeepsDrained(limits, events[..|events| - 1]);
      RunKeepsThreads(limits, events[..|events| - 1]);
      StepKeepsDrained(limits, Run(limits, events[..|events| - 1]), events[|events| - 1]);
    }
  }

  /**
   An observer that ends by itself has admitted everything: if the admission thread is over and
   nobody was stopped, the capture thread is done and every birth it captured was admitted.
   */
  lemma LeavesNothingBehind(limits: Limits, events: seq<Event>)
    requires var s := Run(limits, events); !s.stop && AdmissionOver(s)
    ensures var s := Run(limits, events);
            && s.captureDone && s.evidence.pending == []
            && |s.evidence.births| == |s.evidence.reservations|
            && (forall i | 0 <= i < |s.evidence.births| :: s.evidence.births[i].key == s.evidence.reservations[i].key)
  {
    hide Run, ThreadsKept, HandlesKept, RegistryKept, CaptureReady;
    RunKeepsDrained(limits, events);
    AlwaysInv(limits, events);
  }

  // ---------------------------------------------------------------- the errors

  /** The answers to the capture thread that are failures, and the failing branch they lead to. */
  ghost predicate CaptureFaulty(limits: Limits, s: State, e: Event) {
    || (s.capture.Observing? && e == OpenProcess(false))
    || (s.capture.Opened? && e == ReadIdentity(None))
    || (s.capture.Timed? && e == CheckBirth && |s.evidence.reservations| >= limits.processes
        && (forall r | r in s.evidence.reservations :: r.key != s.capture.key))
    || (s.capture.Querying? && e == QueryImage(None))
    || (s.capture.ClosingLocal? && e == CloseLocal(false))
    || (s.capture == CaptureFailing && e == CaptureFails)
    || (s.capture == CaptureWaking && e == CaptureWakes(false))
  }

  ghost predicate AdmissionFaulty(s: State, e: Event) {
    || (s.admission == AdmissionFailing && e == AdmissionFails)
    || (s.admission == AdmissionWaking && e == AdmissionWakes(false))
  }

  /** The shared handles are closed by this step: both threads are done, and nobody did it before. */
  ghost predicate Releases(s: State, e: Event) {
    && !s.natives.closed && s.captureDone && s.admissionDone
    && ((s.capture == CaptureReleasing && e.CaptureReleases?) || (s.admission == AdmissionReleasing && e.AdmissionReleases?)
        || e.OwnerReleases?)
  }

  /** A wake the open port did not take, a shared handle that did not close, a cancellation, incomplete evidence. */
  ghost predicate OwnerFaulty(limits: Limits, s: State, e: Event) {
    || (e == OwnerWakes(false) && !s.natives.closed)
    || (e in {CaptureReleases(false), AdmissionReleases(false), OwnerReleases(false)} && Releases(s, e))
    || e == Cancel
    || (e.Finish?
        && !(0 < e.expected <= limits.processes && |s.evidence.reservations| == |s.evidence.births| == e.expected
             && s.evidence.pending == [] && s.evidence.validating.None?))
  }

  ghost predicate Faulty(limits: Limits, s: State, e: Event) {
    CaptureFaulty(limits, s, e) || AdmissionFaulty(s, e) || OwnerFaulty(limits, s, e)
  }

  /** The step from `s` to `t` raises the error exactly if it is faulty, and the stop for that or for a `finish`. */
  ghost predicate RaisesExactly(limits: Limits, s: State, e: Event, t: State) {
    && (t.error <==> s.error || Faulty(limits, s, e))
    && (t.stop <==> s.stop || Faulty(limits, s, e) || e.Finish?)
  }

  lemma ReadingRaises(limits: Limits, s: State, e: Event)
    requires e.NoNotification? || e.QuitNotification? || e.ReadFailed? || e.BirthNotification? || e.OpenProcess?
             || e.ReadIdentity?
    ensures RaisesExactly(limits, s, e, Step(limits, s, e))
  {
  }

  lemma BirthRaises(limits: Limits, s: State, e: Event)
    requires e.CheckBirth? || e.QueryImage? || e.Publish? || e.CloseLocal?
    ensures RaisesExactly(limits, s, e, Step(limits, s, e))
  {
  }

  lemma AdmissionRaises(limits: Limits, s: State, e: Event)
    requires e.TakeNext? || e.Hash? || e.Admit? || e.Clear?
    ensures RaisesExactly(limits, s, e, Step(limits, s, e))
  {
  }

  lemma OwnerRaises(limits: Limits, s: State, e: Event)
    requires e.Cancel? || e.Finish? || e.OwnerWakes?
    ensures RaisesExactly(limits, s, e, Step(limits, s, e))
  {
  }

  lemma CaptureTailRaises(limits: Limits, s: State, e: Event)
    requires ThreadsKept(s) && (e.CaptureFails? || e.CaptureWakes? || e.CaptureEnds?)
    ensures RaisesExactly(limits, s, e, Step(limits, s, e))
  {
    hide Release;
  }

  lemma AdmissionTailRaises(limits: Limits, s: State, e: Event)
    requires ThreadsKept(s) && (e.AdmissionFails? || e.AdmissionWakes? || e.AdmissionEnds?)
    ensures RaisesExactly(limits, s, e, Step(limits, s, e))
  {
    hide Release;
  }

  lemma ReleaseRaises(limits: Limits, s: State, e: Event)
    requires e.CaptureReleases? || e.AdmissionReleases? || e.OwnerReleases?
    ensures RaisesExactly(limits, s, e, Step(limits, s, e))
  {
    hide Wake;
  }

  lemma StepRaises(limits: Limits, s: State, e: Event)
    requires ThreadsKept(s)
    ensures RaisesExactly(limits, s, e, Step(limits, s, e))
  {
    hide Step, RaisesExactly, ThreadsKept;
    match e
    case NoNotification => ReadingRaises(limits, s, e);
    case QuitNotification => ReadingRaises(limits, s, e);
    case ReadFailed => ReadingRaises(limits, s, e);
    case BirthNotification => ReadingRaises(limits, s, e);
    case OpenProcess(_) => ReadingRaises(limits, s, e);
    case ReadIdentity(_) => ReadingRaises(limits, s, e);
    case CheckBirth => BirthRaises(limits, s, e);
    case QueryImage(_) => BirthRaises(limits, s, e);
    case Publish => BirthRaises(limits, s, e);
    case CloseLocal(_) => BirthRaises(limits, s, e);
    case CaptureReleases(_) => ReleaseRaises(limits, s, e);
    case AdmissionReleases(_) => ReleaseRaises(limits, s, e);
    case OwnerReleases(_) => ReleaseRaises(limits, s, e);
    case CaptureFails => CaptureTailRaises(limits, s, e);
    case CaptureWakes(_) => CaptureTailRaises(limits, s, e);
    case CaptureEnds => CaptureTailRaises(limits, s, e);
    case AdmissionFails => AdmissionTailRaises(limits, s, e);
    case AdmissionWakes(_) => AdmissionTailRaises(limits, s, e);
    case AdmissionEnds => AdmissionTailRaises(limits, s, e);
    case Cancel => OwnerRaises(limits, s, e);
    case Finish(_) => OwnerRaises(limits, s, e);
    case OwnerWakes(_) => OwnerRaises(limits, s, e);
    case _ => AdmissionRaises(limits, s, e);
  }

  lemma RunKeepsThreads(limits: Limits, events: seq<Event>)
    ensures ThreadsKept(Run(limits, events))
  {
    AlwaysInv(limits, events);
  }

  lemma {:induction false} ErrorsStop(limits: Limits, events: seq<Event>)
    ensures Run(limits, events).error ==> Run(limits, events).stop
  {
    hide Step, Faulty, ThreadsKept;
    if events != [] {
      ErrorsStop(limits, events[..|events| - 1]);
      RunKeepsThreads(limits, events[..|events| - 1]);
      StepRaises(limits, Run(limits, events[..|events| - 1]), events[|events| - 1]);
    }
  }

  /**
   Which steps of a run are errors: an answer that is a failure, the failing branch it led to, a wake
   that an open port did not take, a shared handle that did not close, a cancellation, and `finish`
   on incomplete evidence. Whatever is an error stops both threads; besides, only `finish` does.
   */
  lemma ErrorsExact(limits: Limits, events: seq<Event>, e: Event)
    ensures var s, t := Run(limits, events), Run(limits, events + [e]);
            && (t.error <==> s.error || CaptureFaulty(limits, s, e) || AdmissionFaulty(s, e) || OwnerFaulty(limits, s, e))
            && (t.stop <==> s.stop || t.error || e.Finish?)
  {
    hide Step, Run, CaptureFaulty, AdmissionFaulty, OwnerFaulty, ThreadsKept;
    RunSnoc(limits, events, e);
    RunKeepsThreads(limits, events);
    StepRaises(limits, Run(limits, events), e);
    ErrorsStop(limits, events);
  }

  // ---------------------------------------------------------------- wakes and the release

  /** The port is posted to by a wake as long as it is open, and by nothing once it is closed. */
  lemma WakesWhileOpen(limits: Limits, events: seq<Event>, e: Event)
    requires var s := Run(limits, events);
             || (e.CaptureWakes? && s.capture == CaptureWaking) || (e.AdmissionWakes? && s.admission == AdmissionWaking)
             || e.OwnerWakes?
    ensures var s, t := Run(limits, events), Run(limits, events + [e]);
            && t.natives == s.natives.(calls := s.natives.calls + if s.natives.closed then [] else [Touch(s.natives.port)])
            && (!e.OwnerWakes? ==> !s.natives.closed)
  {
    hide Run;
    RunSnoc(limits, events, e);
    RunKeepsThreads(limits, events);
  }

  /** What a release does to the shared handles: each is closed, the port and the job handle last, and none is left. */
  ghost predicate Released(n: Natives, m: Natives) {
    && m.closed && m.handles == []
    && m.port == n.port && m.jobQuery == n.jobQuery && m.next == n.next
    && |m.calls| == |n.calls| + |n.handles| + 2
    && m.calls[..|n.calls|] == n.calls
    && (forall i | 0 <= i < |n.handles| :: m.calls[|n.calls| + i] == Close(n.handles[i]))
    && m.calls[|n.calls| + |n.handles|] == Close(n.port)
    && m.calls[|n.calls| + |n.handles| + 1] == Close(n.jobQuery)
  }

  lemma ClosesListed(calls: seq<Native>, handles: seq<Handle>, port: Handle, jobQuery: Handle)
    ensures var all := calls + CloseAll(handles + [port, jobQuery]);
            && |all| == |calls| + |handles| + 2
            && all[..|calls|] == calls
            && (forall i | 0 <= i < |handles| :: all[|calls| + i] == Close(handles[i]))
            && all[|calls| + |handles|] == Close(port)
            && all[|calls| + |handles| + 1] == Close(jobQuery)
  {
    var both := handles + [port, jobQuery];
    var closes := CloseAll(both);
    hide CloseAll;
    assert both[|handles|] == port && both[|handles| + 1] == jobQuery;
    forall i | 0 <= i < |handles|
      ensures (calls + closes)[|calls| + i] == Close(handles[i])
    {
      assert closes[i] == Close(both[i]);
    }
  }

  lemma ReleaseOnce(s: State, ok: bool)
    ensures var t := Release(s, ok);
            if !s.natives.closed && s.captureDone && s.admissionDone then Released(s.natives, t.natives)
            else t.natives == s.natives
  {
    hide CloseAll;
    ClosesListed(s.natives.calls, s.natives.handles, s.natives.port, s.natives.jobQuery);
  }

  lemma CaptureClosesNothing(limits: Limits, s: State, e: Event)
    ensures ReadStep(limits, s, e).natives.closed == s.natives.closed
    ensures e.OpenProcess? ==> OpenStep(s, e.succeeded).natives.closed == s.natives.closed
    ensures e.ReadIdentity? ==> IdentityStep(s, e.key).natives.closed == s.natives.closed
    ensures CheckBirthStep(limits, s).natives.closed == s.natives.closed
  {
  }

  lemma BirthClosesNothing(s: State, e: Event)
    ensures e.QueryImage? ==> ImageStep(s, e.image).natives.closed == s.natives.closed
    ensures PublishStep(s).natives.closed == s.natives.closed
    ensures e.CloseLocal? ==> CloseLocalStep(s, e.ok).natives.closed == s.natives.closed
  {
  }

  lemma AdmissionClosesNothing(limits: Limits, s: State)
    ensures TakeNextStep(s).natives.closed == s.natives.closed && AdmitStep(limits, s).natives.closed == s.natives.closed
    ensures ClearStep(s).natives.closed == s.natives.closed && Failed(s).natives.closed == s.natives.closed
    ensures forall ok :: Wake(s, ok).natives.closed == s.natives.closed
  {
    hide Cap, CountKind;
  }

  lemma TailsCloseNothing(s: State, e: Event)
    requires !e.CaptureReleases? && !e.AdmissionReleases?
    ensures CaptureTailStep(s, e).natives.closed == s.natives.closed
    ensures AdmissionTailStep(s, e).natives.closed == s.natives.closed
  {
    hide Release;
  }

  /** Only a release closes the shared handles. */
  lemma OnlyReleasesClose(limits: Limits, s: State, e: Event)
    requires !e.CaptureReleases? && !e.AdmissionReleases? && !e.OwnerReleases?
    ensures Step(limits, s, e).natives.closed == s.natives.closed
  {
    hide ReadStep, OpenStep, IdentityStep, CheckBirthStep, ImageStep, PublishStep, CloseLocalStep;
    hide TakeNextStep, AdmitStep, ClearStep, CaptureTailStep, AdmissionTailStep, Wake, Release, Failed, Reconciled;
    CaptureClosesNothing(limits, s, e);
    BirthClosesNothing(s, e);
    AdmissionClosesNothing(limits, s);
    TailsCloseNothing(s, e);
  }

  /**
   The shared handles are closed in one step of a run, the first release after both threads are done;
   a thread's last step leaves it done and gone whether or not the release was its to make.
   */
  lemma ReleasedOnce(limits: Limits, events: seq<Event>, e: Event)
    ensures var s, t := Run(limits, events), Run(limits, events + [e]);
            && (t.natives.closed <==> s.natives.closed || Releases(s, e))
            && (Releases(s, e) ==> Released(s.natives, t.natives))
            && (s.capture == CaptureReleasing && e.CaptureReleases? ==> t.capture == CaptureExited && t.captureDone)
            && (s.admission == AdmissionReleasing && e.AdmissionReleases? ==> t.admission == AdmissionExited && t.admissionDone)
  {
    hide Run, Release, Released;
    var s := Run(limits, events);
    RunSnoc(limits, events, e);
    RunKeepsThreads(limits, events);
    if e.CaptureReleases? || e.AdmissionReleases? || e.OwnerReleases? {
      ReleaseOnce(s, e.ok);
      WakingKeepsThreads(s);
    } else {
      OnlyReleasesClose(limits, s, e);
    }
  }

  // ---------------------------------------------------------------- the end

  /** The event answers the question the capture thread stands at. */
  predicate CaptureTurn(pc: CapturePc, e: Event) {
    match pc
    case Reading => e.NoNotification? || e.QuitNotification? || e.ReadFailed? || e.BirthNotification?
    case Observing(_) => e.OpenProcess?
    case Opened(_, _) => e.ReadIdentity?
    case Timed(_, _, _) => e.CheckBirth?
    case Querying(_, _, _) => e.QueryImage?
    case Publishing(_, _) => e.Publish?
    case ClosingLocal(_, _) => e.CloseLocal?
    case CaptureFailing => e.CaptureFails?
    case CaptureWaking => e.CaptureWakes?
    case CaptureFinally => e.CaptureEnds?
    case CaptureReleasing => e.CaptureReleases?
    case CaptureExited => false
  }

  predicate AdmissionTurn(pc: AdmissionPc, e: Event) {
    match pc
    case Waiting => e.TakeNext?
    case Hashing(_) => e.Hash?
    case Classified(_, _) => e.Admit?
    case ClearingAdmitted(_) => e.Clear?
    case ClearingDropped(_, _) => e.Clear?
    case AdmissionFailing => e.AdmissionFails?
    case AdmissionWaking => e.AdmissionWakes?
    case AdmissionFinally => e.AdmissionEnds?
    case AdmissionReleasing => e.AdmissionReleases?
    case AdmissionExited => false
  }

  /** The most turns a stopped capture thread still takes. */
  function CaptureLeft(pc: CapturePc): (left: nat)
    ensures left <= 10 && (left == 0 <==> pc == CaptureExited)
  {
    match pc
    case Observing(_) => 10
    case Opened(_, _) => 9
    case Timed(_, _, _) => 8
    case Querying(_, _, _) => 7
    case Publishing(_, _) => 6
    case ClosingLocal(_, _) => 5
    case CaptureFailing => 4
    case Reading => 3
    case CaptureWaking => 3
    case CaptureFinally => 2
    case CaptureReleasing => 1
    case CaptureExited => 0
  }

  /** The most turns a stopped admission thread still takes. */
  function AdmissionLeft(pc: AdmissionPc): (left: nat)
    ensures left <= 7 && (left == 0 <==> pc == AdmissionExited)
  {
    match pc
    case Hashing(_) => 7
    case Classified(_, _) => 6
    case ClearingDropped(_, _) => 5
    case ClearingAdmitted(_) => 4
    case AdmissionFailing => 4
    case Waiting => 3
    case AdmissionWaking => 3
    case AdmissionFinally => 2
    case AdmissionReleasing => 1
    case AdmissionExited => 0
  }

  /** The turns both threads take in `events`. */
  function Turns(limits: Limits, s: State, events: seq<Event>): nat
    decreases |events|
  {
    if events == [] then 0
    else
      (if CaptureTurn(s.capture, events[0]) || AdmissionTurn(s.admission, events[0]) then 1 else 0)
      + Turns(limits, Step(limits, s, events[0]), events[1..])
  }

  /** Each thread is where it was unless it is its turn, and then it has fewer turns left. */
  ghost predicate ComesCloser(s: State, t: State, e: Event) {
    && (if CaptureTurn(s.capture, e) then CaptureLeft(t.capture) < CaptureLeft(s.capture) else t.capture == s.capture)
    && (if AdmissionTurn(s.admission, e) then AdmissionLeft(t.admission) < AdmissionLeft(s.admission)
        else t.admission == s.admission)
  }

  lemma ReadingComesCloser(limits: Limits, s: State, e: Event)
    requires s.stop
    requires e.NoNotification? || e.QuitNotification? || e.ReadFailed? || e.BirthNotification? || e.OpenProcess?
             || e.ReadIdentity?
    ensures ComesCloser(s, Step(limits, s, e), e)
  {
  }

  lemma BirthComesCloser(limits: Limits, s: State, e: Event)
    requires s.stop && (e.CheckBirth? || e.QueryImage? || e.Publish? || e.CloseLocal?)
    ensures ComesCloser(s, Step(limits, s, e), e)
  {
  }

  lemma AdmissionComesCloser(limits: Limits, s: State, e: Event)
    requires s.stop && (e.TakeNext? || e.Hash? || e.Admit? || e.Clear? || e.Cancel? || e.Finish?)
    ensures ComesCloser(s, Step(limits, s, e), e)
  {
  }

  lemma CaptureTailComesCloser(limits: Limits, s: State, e: Event)
    requires s.stop && (e.CaptureFails? || e.CaptureWakes? || e.CaptureEnds? || e.CaptureReleases?)
    ensures ComesCloser(s, Step(limits, s, e), e)
  {
    hide Wake, Release;
    StandStill(s);
  }

  lemma AdmissionTailComesCloser(limits: Limits, s: State, e: Event)
    requires s.stop && (e.AdmissionFails? || e.AdmissionWakes? || e.AdmissionEnds? || e.AdmissionReleases?)
    ensures ComesCloser(s, Step(limits, s, e), e)
  {
    hide Wake, Release;
    StandStill(s);
  }

  lemma OwnerComesCloser(limits: Limits, s: State, e: Event)
    requires s.stop && (e.OwnerWakes? || e.OwnerReleases?)
    ensures ComesCloser(s, Step(limits, s, e), e)
  {
    hide Wake, Release;
    StandStill(s);
  }

  /** A wake and a release move neither thread. */
  lemma StandStill(s: State)
    ensures forall ok :: Wake(s, ok).capture == s.capture && Wake(s, ok).admission == s.admission
    ensures forall ok :: Release(s, ok).capture == s.capture && Release(s, ok).admission == s.admission
  {
  }

  lemma StoppedComesCloser(limits: Limits, s: State, e: Event)
    requires s.stop
    ensures ComesCloser(s, Step(limits, s, e), e)
  {
    hide Step, ComesCloser;
    match e
    case NoNotification => ReadingComesCloser(limits, s, e);
    case QuitNotification => ReadingComesCloser(limits, s, e);
    case ReadFailed => ReadingComesCloser(limits, s, e);
    case BirthNotification => ReadingComesCloser(limits, s, e);
    case OpenProcess(_) => ReadingComesCloser(limits, s, e);
    case ReadIdentity(_) => ReadingComesCloser(limits, s, e);
    case CheckBirth => BirthComesCloser(limits, s, e);
    case QueryImage(_) => BirthComesCloser(limits, s, e);
    case Publish => BirthComesCloser(limits, s, e);
    case CloseLocal(_) => BirthComesCloser(limits, s, e);
    case TakeNext => AdmissionComesCloser(limits, s, e);
    case Hash(_) => AdmissionComesCloser(limits, s, e);
    case Admit => AdmissionComesCloser(limits, s, e);
    case Clear => AdmissionComesCloser(limits, s, e);
    case Cancel => AdmissionComesCloser(limits, s, e);
    case Finish(_) => AdmissionComesCloser(limits, s, e);
    case CaptureFails => CaptureTailComesCloser(limits, s, e);
    case CaptureWakes(_) => CaptureTailComesCloser(limits, s, e);
    case CaptureEnds => CaptureTailComesCloser(limits, s, e);
    case CaptureReleases(_) => CaptureTailComesCloser(limits, s, e);
    case OwnerWakes(_) => OwnerComesCloser(limits, s, e);
    case OwnerReleases(_) => OwnerComesCloser(limits, s, e);
    case _ => AdmissionTailComesCloser(limits, s, e);
  }

  lemma {:induction false} TurnsBounded(limits: Limits, events: seq<Event>, later: seq<Event>)
    requires Run(limits, events).stop
    ensures var s, t := Run(limits, events), Run(limits, events + later);
            Turns(limits, s, later) + CaptureLeft(t.capture) + AdmissionLeft(t.admission)
            <= CaptureLeft(s.capture) + AdmissionLeft(s.admission)
    decreases |later|
  {
    hide Step, Run, ThreadsKept, CaptureLeft, AdmissionLeft, CaptureTurn, AdmissionTurn;
    if later == [] {
      assert events + later == events;
    } else {
      var s := Run(limits, events);
      RunKeepsThreads(limits, events);
      StepRaises(limits, s, later[0]);
      StoppedComesCloser(limits, s, later[0]);
      RunSnoc(limits, events, later[0]);
      TurnsBounded(limits, events + [later[0]], later[1..]);
      assert events + later == events + [later[0]] + later[1..];
    }
  }

  lemma NothingNewStopped(limits: Limits, s: State, e: Event)
    requires s.stop
    ensures var f, g := s.evidence, Step(limits, s, e).evidence;
            g.reservations == f.reservations && g.pending == f.pending && g.births == f.births
  {
    hide Step;
    if !MovesEvidence(e) {
      OtherEventsFrame(limits, s, e);
    } else {
      MovesNothingStopped(limits, s, e);
    }
  }

  lemma MovesNothingStopped(limits: Limits, s: State, e: Event)
    requires s.stop && MovesEvidence(e)
    ensures var f, g := s.evidence, Step(limits, s, e).evidence;
            g.reservations == f.reservations && g.pending == f.pending && g.births == f.births
  {
    hide CountKind;
  }

  /** Once stopped, nothing more is captured, taken off the queue or admitted, whatever was on its way. */
  lemma {:induction false} StoppedStandsStill(limits: Limits, events: seq<Event>, later: seq<Event>)
    requires Run(limits, events).stop
    ensures var s, t := Run(limits, events), Run(limits, events + later);
            && t.stop
            && t.evidence.reservations == s.evidence.reservations
            && t.evidence.pending == s.evidence.pending && t.evidence.births == s.evidence.births
    decreases |later|
  {
    hide Step, Run, ThreadsKept;
    if later == [] {
      assert events + later == events;
    } else {
      var s := Run(limits, events);
      RunKeepsThreads(limits, events);
      StepRaises(limits, s, later[0]);
      NothingNewStopped(limits, s, later[0]);
      RunSnoc(limits, events, later[0]);
      StoppedStandsStill(limits, events + [later[0]], later[1..]);
      assert events + later == events + [later[0]] + later[1..];
    }
  }

  /**
   A stopped observer ends. Whatever the environment answers and however the threads interleave, the
   two take at most seventeen more turns; and as long as one has not left, it has a turn to take.
   */
  lemma StoppedEnds(limits: Limits, events: seq<Event>, later: seq<Event>)
    requires Run(limits, events).stop
    ensures Turns(limits, Run(limits, events), later) <= 17
    ensures var t := Run(limits, events + later);
            && (!t.capture.CaptureExited? ==> exists e :: CaptureTurn(t.capture, e))
            && (!t.admission.AdmissionExited? ==> exists e :: AdmissionTurn(t.admission, e))
  {
    hide Run, Step, Turns;
    TurnsBounded(limits, events, later);
    var t := Run(limits, events + later);
    var c, a := CaptureNext(t.capture), AdmissionNext(t.admission);
    assert CaptureTurn(t.capture, c) || t.capture.CaptureExited?;
    assert AdmissionTurn(t.admission, a) || t.admission.AdmissionExited?;
  }

  /** An answer to what the capture thread asks, each of them the good one. */
  function CaptureNext(pc: CapturePc): (e: Event)
    ensures pc.CaptureExited? || CaptureTurn(pc, e)
  {
    match pc
    case Reading => NoNotification
    case Observing(_) => OpenProcess(true)
    case Opened(_, _) => ReadIdentity(Some(Key(0, 1)))
    case Timed(_, _, _) => CheckBirth
    case Querying(_, _, _) => QueryImage(Some(0))
    case Publishing(_, _) => Publish
    case ClosingLocal(_, _) => CloseLocal(true)
    case CaptureFailing => CaptureFails
    case CaptureWaking => CaptureWakes(true)
    case CaptureFinally => CaptureEnds
    case _ => CaptureReleases(true)
  }

  function AdmissionNext(pc: AdmissionPc): (e: Event)
    ensures pc.AdmissionExited? || AdmissionTurn(pc, e)
  {
    match pc
    case Waiting => TakeNext
    case Hashing(_) => Hash(None)
    case Classified(_, _) => Admit
    case ClearingAdmitted(_) => Clear
    case ClearingDropped(_, _) => Clear
    case AdmissionFailing => AdmissionFails
    case AdmissionWaking => AdmissionWakes(true)
    case AdmissionFinally => AdmissionEnds
    case _ => AdmissionReleases(true)
  }

  /**
   From every reachable state, cancelling and then giving the threads their turns ends the observer:
   both are gone, and every handle ever opened is closed.
   */
  lemma CancelledEnds(limits: Limits, events: seq<Event>) returns (later: seq<Event>)
    ensures |later| <= 18 && later != [] && later[0] == Cancel
    ensures var t := Run(limits, events + later);
            && t.capture.CaptureExited? && t.admission.AdmissionExited? && t.error
            && (forall h | 0 <= h < t.natives.next :: WasClosed(t.natives.calls, h))
  {
    hide Step, Run, Inv, ThreadsKept, CaptureLeft, AdmissionLeft, WasClosed;
    RunSnoc(limits, events, Cancel);
    CancelStops(limits, events);
    var rest := Ending(limits, events + [Cancel]);
    later := [Cancel] + rest;
    assert events + later == events + [Cancel] + rest;
    ErrorStaysEver(limits, events + [Cancel], rest);
    forall h | 0 <= h < Run(limits, events + later).natives.next
      ensures WasClosed(Run(limits, events + later).natives.calls, h)
    {
      ExitClosesEverything(limits, events + later, h);
    }
  }

  lemma CancelStops(limits: Limits, events: seq<Event>)
    ensures var t := Run(limits, events + [Cancel]); t.stop && t.error
  {
    hide Run, ThreadsKept;
    RunSnoc(limits, events, Cancel);
  }

  /** The turns of both threads one after the other until nobody is left. */
  lemma {:induction false} Ending(limits: Limits, events: seq<Event>) returns (later: seq<Event>)
    requires Run(limits, events).stop
    ensures var s, t := Run(limits, events), Run(limits, events + later);
            && |later| <= CaptureLeft(s.capture) + AdmissionLeft(s.admission)
            && t.capture.CaptureExited? && t.admission.AdmissionExited?
    decreases CaptureLeft(Run(limits, events).capture) + AdmissionLeft(Run(limits, events).admission)
  {
    hide Step, Run, ThreadsKept;
    var s := Run(limits, events);
    if s.capture.CaptureExited? && s.admission.AdmissionExited? {
      later := [];
      assert events + later == events;
    } else {
      var e := if s.capture.CaptureExited? then AdmissionNext(s.admission) else CaptureNext(s.capture);
      RunKeepsThreads(limits, events);
      StepRaises(limits, s, e);
      StoppedComesCloser(limits, s, e);
      RunSnoc(limits, events, e);
      var rest := Ending(limits, events + [e]);
      later := [e] + rest;
      assert events + later == events + [e] + rest;
    }
  }
}
