/**
 The two-actor process observer: one thread captures births from a job's completion port, another
 hashes and admits them in capture order. The threads share a queue, a registry and native handles.

 A step is one critical section or one native call; `Event` says which thread moves and what the
 environment answered. A handle is the identity of one successful open, never reused.
 */
module ProcessObserver {
  import opened Prelude

  type Handle = nat
  type Image = nat
  type Kind = nat

  /** A process birth: a pid may be reused, but not with the same creation time. */
  datatype Key = Key(pid: nat, created: nat)

  datatype Record = Record(key: Key, image: Image, ordinal: nat)

  datatype Birth = Birth(key: Key, kind: Kind)

  /** Limits frozen before anything is captured. */
  datatype Limits = Limits(processes: nat, caps: map<Kind, nat>)

  /** Where the capture thread stands, with the handle it alone holds. */
  datatype CapturePc =
    | Reading
    | Observing(ordinal: nat)
    | Opened(ordinal: nat, handle: Handle)
    | Timed(ordinal: nat, handle: Handle, key: Key)
    | Querying(ordinal: nat, handle: Handle, key: Key)
    | Publishing(record: Record, handle: Handle)
    | ClosingLocal(handle: Handle, raising: bool)
    | CaptureFailing
    | CaptureWaking
    | CaptureFinally
    | CaptureReleasing
    | CaptureExited

  /** Where the admission thread stands, with the record it took. */
  datatype AdmissionPc =
    | Waiting
    | Hashing(record: Record)
    | Classified(record: Record, kind: Kind)
    | ClearingAdmitted(record: Record)
    | ClearingDropped(record: Record, raising: bool)
    | AdmissionFailing
    | AdmissionWaking
    | AdmissionFinally
    | AdmissionReleasing
    | AdmissionExited

  /** The shared evidence; `lost` remembers a record taken off the queue and never admitted. */
  datatype Evidence = Evidence(
    reservations: seq<Record>, pending: seq<Record>, validating: Option<Record>, births: seq<Birth>,
    lost: Option<Record>)

  datatype Native = Open(handle: Handle) | Touch(handle: Handle) | Close(handle: Handle)

  /** The shared handles and every native call made on any handle so far. */
  datatype Natives = Natives(
    handles: seq<Handle>, port: Handle, jobQuery: Handle, closed: bool, next: Handle, calls: seq<Native>)
  {
    function Call(more: seq<Native>): Natives {
      this.(calls := calls + more)
    }
  }

  datatype State = State(
    evidence: Evidence, natives: Natives, stop: bool, error: bool, captureDone: bool, admissionDone: bool,
    capture: CapturePc, admission: AdmissionPc)

  datatype Event =
    // the capture thread, with the environment's answer
    | NoNotification | QuitNotification | ReadFailed | BirthNotification
    | OpenProcess(succeeded: bool)
    | ReadIdentity(key: Option<Key>)
    | CheckBirth
    | QueryImage(image: Option<Image>)
    | Publish
    | CloseLocal(ok: bool)
    | CaptureFails | CaptureWakes(ok: bool) | CaptureEnds | CaptureReleases(ok: bool)
    // the admission thread
    | TakeNext
    | Hash(kind: Option<Kind>)
    | Admit
    | Clear
    | AdmissionFails | AdmissionWakes(ok: bool) | AdmissionEnds | AdmissionReleases(ok: bool)
    // the owning thread
    | Cancel
    | Finish(expected: nat)
    | OwnerWakes(ok: bool) | OwnerReleases(ok: bool)

  predicate Reserved(e: Evidence, key: Key) {
    exists r :: r in e.reservations && r.key == key
  }

  function CountKind(births: seq<Birth>, kind: Kind): nat {
    if births == [] then 0
    else CountKind(births[..|births| - 1], kind) + if births[|births| - 1].kind == kind then 1 else 0
  }

  function Cap(limits: Limits, kind: Kind): nat {
    if kind in limits.caps then limits.caps[kind] else 0
  }

  /** `_record_failure`: the terminal state is published before anyone is woken. */
  function Failed(s: State): State {
    s.(error := true, stop := true)
  }

  /** `_wake`: the port is posted to only while it is not released; a post that fails is recorded. */
  function Wake(s: State, ok: bool): State {
    if s.natives.closed then s
    else
      var t := s.(natives := s.natives.Call([Touch(s.natives.port)]));
      if ok then t else Failed(t)
  }

  function CloseAll(handles: seq<Handle>): (calls: seq<Native>)
    ensures |calls| == |handles|
    ensures forall i :: 0 <= i < |handles| ==> calls[i] == Close(handles[i])
  {
    if handles == [] then [] else [Close(handles[0])] + CloseAll(handles[1..])
  }

  /** `_release`: nothing happens until both threads are done, and then it happens once; a failing close is recorded. */
  function Release(s: State, ok: bool): State {
    var n := s.natives;
    if n.closed || !s.captureDone || !s.admissionDone then s
    else
      var t := s.(natives := n.Call(CloseAll(n.handles + [n.port, n.jobQuery])).(handles := [], closed := true));
      if ok then t else Failed(t)
  }

  predicate Reconciled(limits: Limits, s: State, expected: nat) {
    && !s.error
    && 0 < expected <= limits.processes
    && |s.evidence.reservations| == expected && |s.evidence.births| == expected
    && s.evidence.pending == []
    && s.evidence.validating.None?
  }

  // ---------------------------------------------------------------- the capture thread

  /** One turn of `_read`: unless stopped, take a completion packet off the port. */
  function ReadStep(limits: Limits, s: State, e: Event): State {
    if !s.capture.Reading? then s
    else if s.stop then s.(capture := CaptureFinally)
    else
      s.(natives := s.natives.Call([Touch(s.natives.port)]),
         capture := match e
                    case QuitNotification => CaptureFinally
                    case ReadFailed => CaptureFailing
                    case BirthNotification => Observing(NextOrdinal(limits, s.evidence))
                    case _ => Reading)
  }

  function NextOrdinal(limits: Limits, e: Evidence): nat {
    var next := |e.reservations| + 1;
    if next <= limits.processes then next else limits.processes + 1
  }

  function OpenStep(s: State, succeeded: bool): State {
    if !s.capture.Observing? then s
    else if !succeeded then Failed(s).(capture := CaptureFailing)
    else
      var h := s.natives.next;
      s.(natives := s.natives.Call([Open(h)]).(next := h + 1), capture := Opened(s.capture.ordinal, h))
  }

  /** Job membership and creation time. */
  function IdentityStep(s: State, key: Option<Key>): State {
    if !s.capture.Opened? then s
    else
      var h := s.capture.handle;
      var t := s.(natives := s.natives.Call([Touch(h), Touch(s.natives.jobQuery)]));
      if key.None? then Failed(t).(capture := ClosingLocal(h, true))
      else t.(capture := Timed(s.capture.ordinal, h, key.value))
  }

  function CheckBirthStep(limits: Limits, s: State): State {
    if !s.capture.Timed? then s
    else if Reserved(s.evidence, s.capture.key) then s.(capture := ClosingLocal(s.capture.handle, false))
    else if |s.evidence.reservations| >= limits.processes then Failed(s).(capture := ClosingLocal(s.capture.handle, true))
    else s.(capture := Querying(s.capture.ordinal, s.capture.handle, s.capture.key))
  }

  function ImageStep(s: State, image: Option<Image>): State {
    if !s.capture.Querying? then s
    else
      var h := s.capture.handle;
      var t := s.(natives := s.natives.Call([Touch(h)]));
      if image.None? then Failed(t).(capture := ClosingLocal(h, true))
      else t.(capture := Publishing(Record(s.capture.key, image.value, s.capture.ordinal), h))
  }

  /** The registry owns the handle before the queue shows the work. */
  function PublishStep(s: State): State {
    if !s.capture.Publishing? then s
    else if s.stop then s.(capture := ClosingLocal(s.capture.handle, false))
    else
      var r, e := s.capture.record, s.evidence;
      s.(natives := s.natives.(handles := s.natives.handles + [s.capture.handle]),
         evidence := e.(reservations := e.reservations + [r], pending := e.pending + [r]),
         capture := Reading)
  }

  function CloseLocalStep(s: State, ok: bool): State {
    if !s.capture.ClosingLocal? then s
    else
      var t := s.(natives := s.natives.Call([Close(s.capture.handle)]));
      if !ok then Failed(t).(capture := CaptureFailing)
      else t.(capture := if s.capture.raising then CaptureFailing else Reading)
  }

  function CaptureTailStep(s: State, e: Event): State {
    if e.CaptureFails? && s.capture.CaptureFailing? then Failed(s).(capture := CaptureWaking)
    else if e.CaptureWakes? && s.capture.CaptureWaking? then Wake(s, e.ok).(capture := CaptureFinally)
    else if e.CaptureEnds? && s.capture.CaptureFinally? then s.(captureDone := true, capture := CaptureReleasing)
    else if e.CaptureReleases? && s.capture.CaptureReleasing? then Release(s, e.ok).(capture := CaptureExited)
    else s
  }

  // ---------------------------------------------------------------- the admission thread

  function TakeNextStep(s: State): State {
    var e := s.evidence;
    if !s.admission.Waiting? then s
    else if s.stop || (e.pending == [] && s.captureDone) then s.(admission := AdmissionFinally)
    else if e.pending == [] then s
    else
      s.(evidence := e.(pending := e.pending[1..], validating := Some(e.pending[0])),
         admission := Hashing(e.pending[0]))
  }

  function HashStep(s: State, kind: Option<Kind>): State {
    if !s.admission.Hashing? then s
    else
      s.(admission := if kind.None? then ClearingDropped(s.admission.record, true)
                      else Classified(s.admission.record, kind.value))
  }

  function AdmitStep(limits: Limits, s: State): State {
    if !s.admission.Classified? then s
    else
      var r, kind, e := s.admission.record, s.admission.kind, s.evidence;
      if s.stop then s.(admission := ClearingDropped(r, false))
      else if CountKind(e.births, kind) >= Cap(limits, kind) then s.(admission := ClearingDropped(r, true))
      else s.(evidence := e.(births := e.births + [Birth(r.key, kind)]), admission := ClearingAdmitted(r))
  }

  function ClearStep(s: State): State {
    var e := s.evidence;
    if s.admission.ClearingAdmitted? then s.(evidence := e.(validating := None), admission := Waiting)
    else if s.admission.ClearingDropped? then
      s.(evidence := e.(validating := None, lost := Some(s.admission.record)),
         admission := if s.admission.raising then AdmissionFailing else Waiting)
    else s
  }

  function AdmissionTailStep(s: State, e: Event): State {
    if e.AdmissionFails? && s.admission.AdmissionFailing? then Failed(s).(admission := AdmissionWaking)
    else if e.AdmissionWakes? && s.admission.AdmissionWaking? then Wake(s, e.ok).(admission := AdmissionFinally)
    else if e.AdmissionEnds? && s.admission.AdmissionFinally? then
      s.(admissionDone := true, admission := AdmissionReleasing)
    else if e.AdmissionReleases? && s.admission.AdmissionReleasing? then Release(s, e.ok).(admission := AdmissionExited)
    else s
  }

  // ---------------------------------------------------------------- the owning thread, and all three

  function FinishStep(limits: Limits, s: State, expected: nat): State {
    if !s.error && !Reconciled(limits, s, expected) then Failed(s) else s.(stop := true)
  }

  /** One step of one thread; an event its thread is not ready for changes nothing. */
  function Step(limits: Limits, s: State, e: Event): State {
    match e
    case NoNotification => ReadStep(limits, s, e)
    case QuitNotification => ReadStep(limits, s, e)
    case ReadFailed => ReadStep(limits, s, e)
    case BirthNotification => ReadStep(limits, s, e)
    case OpenProcess(succeeded) => OpenStep(s, succeeded)
    case ReadIdentity(key) => IdentityStep(s, key)
    case CheckBirth => CheckBirthStep(limits, s)
    case QueryImage(image) => ImageStep(s, image)
    case Publish => PublishStep(s)
    case CloseLocal(ok) => CloseLocalStep(s, ok)
    case CaptureFails => CaptureTailStep(s, e)
    case CaptureWakes(_) => CaptureTailStep(s, e)
    case CaptureEnds => CaptureTailStep(s, e)
    case CaptureReleases(_) => CaptureTailStep(s, e)
    case TakeNext => TakeNextStep(s)
    case Hash(kind) => HashStep(s, kind)
    case Admit => AdmitStep(limits, s)
    case Clear => ClearStep(s)
    case AdmissionFails => AdmissionTailStep(s, e)
    case AdmissionWakes(_) => AdmissionTailStep(s, e)
    case AdmissionEnds => AdmissionTailStep(s, e)
    case AdmissionReleases(_) => AdmissionTailStep(s, e)
    case Cancel => Failed(s)
    case Finish(expected) => FinishStep(limits, s, expected)
    case OwnerWakes(ok) => Wake(s, ok)
    case OwnerReleases(ok) => Release(s, ok)
  }

  /** Both threads started; handles 0 and 1 are the completion port and the duplicated job handle. */
  const INITIAL: State := State(
    Evidence([], [], None, [], None), Natives([], 0, 1, false, 2, [Open(0), Open(1)]),
    false, false, false, false, Reading, Waiting)

  function Run(limits: Limits, events: seq<Event>): State {
    if events == [] then INITIAL
    else Step(limits, Run(limits, events[..|events| - 1]), events[|events| - 1])
  }

  // ---------------------------------------------------------------- the pipeline

  /** The record taken off the queue and neither admitted nor cleared, or else the one given up. */
  function Held(s: State): Option<Record> {
    match s.admission
    case Hashing(record) => Some(record)
    case Classified(record, _) => Some(record)
    case ClearingDropped(record, _) => Some(record)
    case _ => s.evidence.lost
  }

  /** Capture order is kept end to end: births, then at most one held record, then the queue. */
  ghost predicate InOrder(e: Evidence, held: Option<Record>) {
    && |e.births| + (if held.Some? then 1 else 0) + |e.pending| == |e.reservations|
    && (forall i :: 0 <= i < |e.births| ==> e.births[i].key == e.reservations[i].key)
    && (held.Some? ==> held.value == e.reservations[|e.births|])
    && (forall i :: 0 <= i < |e.pending| ==> e.pending[i] == e.reservations[|e.reservations| - |e.pending| + i])
  }

  function Shown(pc: AdmissionPc): Option<Record> {
    match pc
    case Hashing(record) => Some(record)
    case Classified(record, _) => Some(record)
    case ClearingAdmitted(record) => Some(record)
    case ClearingDropped(record, _) => Some(record)
    case _ => None
  }

  /** A record is given up only at a stop, or by a failure about to publish one. */
  ghost predicate GivenUpOnlyAtStop(s: State) {
    && (s.evidence.lost.Some? ==> (s.stop || s.admission.AdmissionFailing?) && Shown(s.admission).None?)
    && (s.admission.AdmissionFailing? ==> s.evidence.lost.Some?)
    && (s.admission.ClearingDropped? && !s.admission.raising ==> s.stop)
    && (s.error ==> s.stop)
  }

  ghost predicate PipelineKept(s: State) {
    && InOrder(s.evidence, Held(s))
    && GivenUpOnlyAtStop(s)
    && s.evidence.validating == Shown(s.admission)
    && (s.admission.ClearingAdmitted? ==>
          var births := s.evidence.births;
          births != [] && births[|births| - 1].key == s.admission.record.key)
  }

  /** Events whose step may change the evidence. */
  predicate MovesEvidence(e: Event) {
    e.Publish? || e.TakeNext? || e.Admit? || e.Hash? || e.Clear?
  }

  /** Same evidence, no stop undone, no error without one, and the admission thread at most ends. */
  ghost predicate EvidenceFramed(s: State, t: State) {
    && t.evidence == s.evidence
    && (s.stop ==> t.stop) && (t.error ==> s.error || t.stop)
    && (t.admission == s.admission
        || (Shown(s.admission).None? && Shown(t.admission).None? && !t.admission.AdmissionFailing?
            && (s.admission.AdmissionFailing? ==> t.stop)))
  }

  lemma ReadingFramesEvidence(limits: Limits, s: State, e: Event)
    ensures EvidenceFramed(s, ReadStep(limits, s, e)) && EvidenceFramed(s, CheckBirthStep(limits, s))
  {
  }

  lemma CaptureFramesEvidence(limits: Limits, s: State, e: Event)
    ensures e.OpenProcess? ==> EvidenceFramed(s, OpenStep(s, e.succeeded))
    ensures e.ReadIdentity? ==> EvidenceFramed(s, IdentityStep(s, e.key))
    ensures e.QueryImage? ==> EvidenceFramed(s, ImageStep(s, e.image))
    ensures e.CloseLocal? ==> EvidenceFramed(s, CloseLocalStep(s, e.ok))
  {
  }

  lemma WakingFramesEvidence(s: State)
    ensures forall ok :: EvidenceFramed(s, Wake(s, ok)) && EvidenceFramed(s, Release(s, ok))
    ensures forall ok :: Wake(s, ok).admission == s.admission && Release(s, ok).admission == s.admission
    ensures EvidenceFramed(s, Failed(s))
  {
  }

  lemma CaptureTailFramesEvidence(s: State, e: Event)
    ensures EvidenceFramed(s, CaptureTailStep(s, e))
  {
    hide Wake, Release;
    WakingFramesEvidence(s);
  }

  lemma AdmissionTailFramesEvidence(s: State, e: Event)
    ensures EvidenceFramed(s, AdmissionTailStep(s, e))
  {
    hide Wake, Release;
    WakingFramesEvidence(s);
  }

  lemma TailsFrameEvidence(limits: Limits, s: State, e: Event)
    ensures EvidenceFramed(s, CaptureTailStep(s, e)) && EvidenceFramed(s, AdmissionTailStep(s, e))
    ensures forall ok :: EvidenceFramed(s, Wake(s, ok)) && EvidenceFramed(s, Release(s, ok))
    ensures EvidenceFramed(s, Failed(s))
    ensures e.Finish? ==> EvidenceFramed(s, FinishStep(limits, s, e.expected))
  {
    hide Wake, Release, CaptureTailStep, AdmissionTailStep;
    WakingFramesEvidence(s);
    CaptureTailFramesEvidence(s, e);
    AdmissionTailFramesEvidence(s, e);
  }

  lemma OtherEventsFrame(limits: Limits, s: State, e: Event)
    requires !MovesEvidence(e)
    ensures EvidenceFramed(s, Step(limits, s, e))
  {
    hide EvidenceFramed, ReadStep, OpenStep, IdentityStep, CheckBirthStep, ImageStep, CloseLocalStep;
    hide CaptureTailStep, AdmissionTailStep, FinishStep, Wake, Release, Failed;
    ReadingFramesEvidence(limits, s, e);
    CaptureFramesEvidence(limits, s, e);
    TailsFrameEvidence(limits, s, e);
  }

  lemma PublishKeepsPipeline(s: State)
    requires PipelineKept(s)
    ensures PipelineKept(PublishStep(s))
  {
  }

  lemma TakeKeepsPipeline(s: State)
    requires PipelineKept(s)
    ensures PipelineKept(TakeNextStep(s))
  {
  }

  lemma AdmitKeepsPipeline(limits: Limits, s: State)
    requires PipelineKept(s)
    ensures PipelineKept(AdmitStep(limits, s))
  {
  }

  lemma HashKeepsPipeline(s: State, kind: Option<Kind>)
    requires PipelineKept(s)
    ensures PipelineKept(HashStep(s, kind))
  {
  }

  lemma ClearKeepsPipeline(s: State)
    requires PipelineKept(s)
    ensures PipelineKept(ClearStep(s))
  {
  }

  lemma FramedKeepsPipeline(s: State, t: State)
    requires PipelineKept(s) && EvidenceFramed(s, t)
    ensures PipelineKept(t)
  {
  }

  lemma StepKeepsPipeline(limits: Limits, s: State, e: Event)
    requires PipelineKept(s)
    ensures PipelineKept(Step(limits, s, e))
  {
    hide PipelineKept, EvidenceFramed, PublishStep, TakeNextStep, AdmitStep, HashStep, ClearStep;
    if e.Publish? {
      PublishKeepsPipeline(s);
    } else if e.TakeNext? {
      TakeKeepsPipeline(s);
    } else if e.Admit? {
      AdmitKeepsPipeline(limits, s);
    } else if e.Hash? {
      HashKeepsPipeline(s, e.kind);
    } else if e.Clear? {
      ClearKeepsPipeline(s);
    } else {
      OtherEventsFrame(limits, s, e);
      FramedKeepsPipeline(s, Step(limits, s, e));
    }
  }

  // ---------------------------------------------------------------- the registry

  /** Reserved births are distinct, numbered in order and within the limit; admitted ones are within their class caps. */
  ghost predicate RegistryKept(limits: Limits, e: Evidence) {
    && (forall i, j | 0 <= i < j < |e.reservations| :: e.reservations[i].key != e.reservations[j].key)
    && (forall i | 0 <= i < |e.reservations| :: e.reservations[i].ordinal == i + 1)
    && |e.reservations| <= limits.processes
    && (forall kind :: CountKind(e.births, kind) <= Cap(limits, kind))
  }

  /** What the capture thread has established on its way to publishing a birth. */
  ghost predicate CaptureReady(limits: Limits, s: State) {
    match s.capture
    case Observing(ordinal) => ordinal == NextOrdinal(limits, s.evidence)
    case Opened(ordinal, _) => ordinal == NextOrdinal(limits, s.evidence)
    case Timed(ordinal, _, _) => ordinal == NextOrdinal(limits, s.evidence)
    case Querying(ordinal, _, key) =>
      ordinal == |s.evidence.reservations| + 1 <= limits.processes && !Reserved(s.evidence, key)
    case Publishing(record, _) =>
      record.ordinal == |s.evidence.reservations| + 1 <= limits.processes && !Reserved(s.evidence, record.key)
    case _ => true
  }

  lemma PublishKeepsRegistry(limits: Limits, s: State)
    requires RegistryKept(limits, s.evidence) && CaptureReady(limits, s)
    ensures RegistryKept(limits, PublishStep(s).evidence) && CaptureReady(limits, PublishStep(s))
  {
  }

  lemma AdmitKeepsRegistry(limits: Limits, s: State)
    requires RegistryKept(limits, s.evidence) && CaptureReady(limits, s)
    ensures RegistryKept(limits, AdmitStep(limits, s).evidence) && CaptureReady(limits, AdmitStep(limits, s))
  {
    var before, after := s.evidence.births, AdmitStep(limits, s).evidence.births;
    if after != before {
      assert after[..|after| - 1] == before;
    }
  }

  lemma ReadingKeepsReady(limits: Limits, s: State, e: Event)
    requires CaptureReady(limits, s)
    ensures CaptureReady(limits, ReadStep(limits, s, e))
    ensures e.OpenProcess? ==> CaptureReady(limits, OpenStep(s, e.succeeded))
    ensures e.ReadIdentity? ==> CaptureReady(limits, IdentityStep(s, e.key))
  {
  }

  lemma BirthKeepsReady(limits: Limits, s: State, e: Event)
    requires CaptureReady(limits, s)
    ensures CaptureReady(limits, CheckBirthStep(limits, s))
    ensures e.QueryImage? ==> CaptureReady(limits, ImageStep(s, e.image))
    ensures e.CloseLocal? ==> CaptureReady(limits, CloseLocalStep(s, e.ok))
  {
  }

  /** Same evidence, and the capture thread stays where it is or is past its last record. */
  ghost predicate CaptureFramed(s: State, t: State) {
    && t.evidence == s.evidence
    && (t.capture == s.capture || t.capture.CaptureWaking? || t.capture.CaptureFinally?
        || t.capture.CaptureReleasing? || t.capture.CaptureExited?)
  }

  lemma FramedKeepsReady(limits: Limits, s: State, t: State)
    requires CaptureReady(limits, s) && CaptureFramed(s, t)
    ensures CaptureReady(limits, t)
  {
  }

  lemma WakingFramesCapture(s: State)
    ensures forall ok :: Wake(s, ok).evidence == s.evidence && Wake(s, ok).capture == s.capture
    ensures forall ok :: Release(s, ok).evidence == s.evidence && Release(s, ok).capture == s.capture
  {
  }

  lemma TailsFrameCapture(limits: Limits, s: State, e: Event)
    ensures CaptureFramed(s, CaptureTailStep(s, e)) && CaptureFramed(s, AdmissionTailStep(s, e))
    ensures forall ok :: CaptureFramed(s, Wake(s, ok)) && CaptureFramed(s, Release(s, ok))
    ensures CaptureFramed(s, Failed(s))
    ensures e.Finish? ==> CaptureFramed(s, FinishStep(limits, s, e.expected))
  {
    hide Wake, Release;
    WakingFramesCapture(s);
  }

  lemma TailsKeepReady(limits: Limits, s: State, e: Event)
    requires CaptureReady(limits, s)
    ensures CaptureReady(limits, CaptureTailStep(s, e)) && CaptureReady(limits, AdmissionTailStep(s, e))
    ensures forall ok :: CaptureReady(limits, Wake(s, ok)) && CaptureReady(limits, Release(s, ok))
    ensures CaptureReady(limits, Failed(s))
    ensures e.Finish? ==> CaptureReady(limits, FinishStep(limits, s, e.expected))
  {
    hide CaptureReady, CaptureFramed, CaptureTailStep, AdmissionTailStep, FinishStep, Wake, Release, Failed;
    TailsFrameCapture(limits, s, e);
    FramedKeepsReady(limits, s, CaptureTailStep(s, e));
    FramedKeepsReady(limits, s, AdmissionTailStep(s, e));
    forall ok
      ensures CaptureReady(limits, Wake(s, ok)) && CaptureReady(limits, Release(s, ok))
    {
      FramedKeepsReady(limits, s, Wake(s, ok));
      FramedKeepsReady(limits, s, Release(s, ok));
    }
    FramedKeepsReady(limits, s, Failed(s));
    if e.Finish? {
      FramedKeepsReady(limits, s, FinishStep(limits, s, e.expected));
    }
  }

  lemma CaptureReadyFramed(limits: Limits, s: State, e: Event)
    requires CaptureReady(limits, s) && !MovesEvidence(e)
    ensures CaptureReady(limits, Step(limits, s, e))
  {
    hide CaptureReady, ReadStep, OpenStep, IdentityStep, CheckBirthStep, ImageStep, CloseLocalStep;
    hide CaptureTailStep, AdmissionTailStep, FinishStep, Wake, Release, Failed;
    ReadingKeepsReady(limits, s, e);
    BirthKeepsReady(limits, s, e);
    TailsKeepReady(limits, s, e);
  }

  lemma SameRegistry(limits: Limits, s: State, t: State)
    requires RegistryKept(limits, s.evidence) && CaptureReady(limits, s)
    requires t.evidence.reservations == s.evidence.reservations && t.evidence.births == s.evidence.births
    requires t.capture == s.capture
    ensures RegistryKept(limits, t.evidence) && CaptureReady(limits, t)
  {
  }

  lemma StepKeepsRegistry(limits: Limits, s: State, e: Event)
    requires RegistryKept(limits, s.evidence) && CaptureReady(limits, s)
    ensures RegistryKept(limits, Step(limits, s, e).evidence) && CaptureReady(limits, Step(limits, s, e))
  {
    hide RegistryKept, CaptureReady, PublishStep, AdmitStep, ReadStep, OpenStep, IdentityStep;
    if e.Publish? {
      PublishKeepsRegistry(limits, s);
    } else if e.Admit? {
      AdmitKeepsRegistry(limits, s);
    } else if !MovesEvidence(e) {
      OtherEventsFrame(limits, s, e);
      CaptureReadyFramed(limits, s, e);
    } else {
      var t := Step(limits, s, e);
      assert t.evidence.reservations == s.evidence.reservations && t.evidence.births == s.evidence.births;
      SameRegistry(limits, s, t);
    }
  }

  // ---------------------------------------------------------------- native handles

  /** The handle the capture thread alone owns at the moment. */
  function LocalHandle(pc: CapturePc): seq<Handle> {
    match pc
    case Opened(_, handle) => [handle]
    case Timed(_, handle, _) => [handle]
    case Querying(_, handle, _) => [handle]
    case Publishing(_, handle) => [handle]
    case ClosingLocal(handle, _) => [handle]
    case _ => []
  }

  /** Every handle somebody still owns and must close. */
  function Live(n: Natives, pc: CapturePc): seq<Handle> {
    LocalHandle(pc) + n.handles + if n.closed then [] else [n.port, n.jobQuery]
  }

  ghost predicate WasClosed(calls: seq<Native>, handle: Handle) {
    exists i :: 0 <= i < |calls| && calls[i] == Close(handle)
  }

  /** Nothing touches, closes or reopens a handle that was closed earlier. */
  ghost predicate NoUseAfterClose(calls: seq<Native>) {
    forall i, j | 0 <= i < j < |calls| && calls[i].Close? :: calls[j].handle != calls[i].handle
  }

  ghost predicate Distinct(handles: seq<Handle>) {
    forall i, j | 0 <= i < j < |handles| :: handles[i] != handles[j]
  }

  /** Every opened handle is owned or was closed, never both, and no call ever used a closed one. */
  ghost predicate HandlesKept(n: Natives, pc: CapturePc) {
    && n.port < n.next && n.jobQuery < n.next
    && Distinct(Live(n, pc))
    && (forall h | h in Live(n, pc) :: h < n.next && !WasClosed(n.calls, h))
    && (forall h: nat | h < n.next && h !in Live(n, pc) :: WasClosed(n.calls, h))
    && (forall i | 0 <= i < |n.calls| :: n.calls[i].handle < n.next)
    && NoUseAfterClose(n.calls)
  }

  /** A thread that is done has let go; the last of the two to leave has released everything. */
  ghost predicate ThreadsKept(s: State) {
    && (s.captureDone <==> s.capture.CaptureReleasing? || s.capture.CaptureExited?)
    && (s.admissionDone <==> s.admission.AdmissionReleasing? || s.admission.AdmissionExited?)
    && (s.natives.closed ==> s.captureDone && s.admissionDone && s.natives.handles == [])
    && (s.capture.CaptureExited? && s.admission.AdmissionExited? ==> s.natives.closed)
  }

  lemma CallsAppend(calls: seq<Native>, more: seq<Native>)
    requires NoUseAfterClose(calls) && NoUseAfterClose(more)
    requires forall i | 0 <= i < |more| :: !WasClosed(calls, more[i].handle)
    ensures NoUseAfterClose(calls + more)
  {
    var all := calls + more;
    forall i, j | 0 <= i < j < |all| && all[i].Close?
      ensures all[j].handle != all[i].handle
    {
      if i < |calls| && |calls| <= j {
        assert calls[i] == Close(all[i].handle);
        assert all[j] == more[j - |calls|];
      }
    }
  }

  lemma ClosedAppend(calls: seq<Native>, more: seq<Native>, h: Handle)
    ensures WasClosed(calls + more, h) <==> WasClosed(calls, h) || WasClosed(more, h)
  {
    var all := calls + more;
    if WasClosed(calls, h) {
      var i :| 0 <= i < |calls| && calls[i] == Close(h);
      assert all[i] == Close(h);
    }
    if WasClosed(more, h) {
      var i :| 0 <= i < |more| && more[i] == Close(h);
      assert all[|calls| + i] == Close(h);
    }
  }

  /** Touching owned handles changes nothing about ownership. */
  lemma TouchingKeepsHandles(n: Natives, pc: CapturePc, pc': CapturePc, more: seq<Native>)
    requires HandlesKept(n, pc) && LocalHandle(pc') == LocalHandle(pc)
    requires forall i | 0 <= i < |more| :: more[i].Touch? && more[i].handle in Live(n, pc)
    ensures HandlesKept(n.Call(more), pc')
  {
    CallsAppend(n.calls, more);
    forall h
      ensures WasClosed(n.calls + more, h) <==> WasClosed(n.calls, h)
    {
      ClosedAppend(n.calls, more, h);
    }
  }

  /** A handle that is opened next was never closed, and opening it closes nothing. */
  lemma OpeningCloses(n: Natives, pc: CapturePc)
    requires HandlesKept(n, pc)
    ensures NoUseAfterClose(n.calls + [Open(n.next)])
    ensures forall h :: WasClosed(n.calls + [Open(n.next)], h) <==> WasClosed(n.calls, h)
    ensures !WasClosed(n.calls, n.next)
  {
    hide Live, Distinct;
    var more := [Open(n.next)];
    assert !WasClosed(n.calls, n.next);
    CallsAppend(n.calls, more);
    forall h
      ensures WasClosed(n.calls + more, h) <==> WasClosed(n.calls, h)
    {
      ClosedAppend(n.calls, more, h);
    }
  }

  lemma DistinctMore(h: Handle, rest: seq<Handle>)
    requires Distinct(rest) && h !in rest
    ensures Distinct([h] + rest)
  {
    var all := [h] + rest;
    forall i, j | 0 <= i < j < |all|
      ensures all[i] != all[j]
    {
      assert all[j] == rest[j - 1] && all[j] in rest;
    }
  }

  lemma OpeningKeepsHandles(n: Natives, pc: CapturePc, pc': CapturePc)
    requires HandlesKept(n, pc) && LocalHandle(pc) == [] && LocalHandle(pc') == [n.next]
    ensures HandlesKept(n.Call([Open(n.next)]).(next := n.next + 1), pc')
  {
    hide Distinct, WasClosed, NoUseAfterClose;
    var m := n.Call([Open(n.next)]).(next := n.next + 1);
    var before, after := Live(n, pc), Live(m, pc');
    OpeningCloses(n, pc);
    assert after == [n.next] + before;
    DistinctMore(n.next, before);
    assert forall h: nat | h < m.next && h !in after :: h < n.next && h !in before;
  }

  lemma DistinctRest(h: Handle, rest: seq<Handle>)
    requires Distinct([h] + rest)
    ensures Distinct(rest) && h !in rest && forall x :: x in [h] + rest <==> x == h || x in rest
  {
    var all := [h] + rest;
    assert forall i | 0 <= i < |rest| :: all[i + 1] == rest[i] && all[i + 1] != all[0];
  }

  lemma ClosingLocalKeepsHandles(n: Natives, pc: CapturePc, pc': CapturePc)
    requires HandlesKept(n, pc) && pc.ClosingLocal? && LocalHandle(pc') == []
    ensures HandlesKept(n.Call([Close(pc.handle)]), pc')
  {
    hide Distinct;
    var more := [Close(pc.handle)];
    assert Live(n, pc)[0] == pc.handle;
    CallsAppend(n.calls, more);
    assert more[0] == Close(pc.handle);
    var before, after := Live(n, pc), Live(n.Call(more), pc');
    assert before == [pc.handle] + after;
    DistinctRest(pc.handle, after);
    forall h
      ensures WasClosed(n.calls + more, h) <==> WasClosed(n.calls, h) || h == pc.handle
    {
      ClosedAppend(n.calls, more, h);
    }
  }

  lemma PublishingKeepsHandles(n: Natives, pc: CapturePc, pc': CapturePc)
    requires HandlesKept(n, pc) && pc.Publishing? && LocalHandle(pc') == []
    ensures HandlesKept(n.(handles := n.handles + [pc.handle]), pc')
  {
    var before, after := Live(n, pc), Live(n.(handles := n.handles + [pc.handle]), pc');
    var k := |n.handles|;
    assert before == [pc.handle] + n.handles + before[k + 1..];
    assert after == n.handles + [pc.handle] + before[k + 1..];
    assert before[0] == pc.handle;
    assert forall i | 0 <= i < k :: after[i] == before[i + 1];
    assert after[k] == before[0];
    assert forall i | k < i < |after| :: after[i] == before[i];
  }

  lemma ClosingAll(handles: seq<Handle>)
    requires Distinct(handles)
    ensures NoUseAfterClose(CloseAll(handles))
    ensures forall h :: WasClosed(CloseAll(handles), h) <==> h in handles
  {
    var calls := CloseAll(handles);
    forall h
      ensures WasClosed(calls, h) <==> h in handles
    {
      if h in handles {
        var i :| 0 <= i < |handles| && handles[i] == h;
        assert calls[i] == Close(h);
      }
    }
  }

  lemma ClosingEverythingKeepsHandles(n: Natives, pc: CapturePc)
    requires HandlesKept(n, pc) && LocalHandle(pc) == [] && !n.closed
    ensures HandlesKept(n.Call(CloseAll(n.handles + [n.port, n.jobQuery])).(handles := [], closed := true), pc)
  {
    var all := n.handles + [n.port, n.jobQuery];
    var more := CloseAll(all);
    var m := n.Call(more).(handles := [], closed := true);
    assert Live(n, pc) == all && Live(m, pc) == [];
    ClosingAll(all);
    forall i | 0 <= i < |more|
      ensures !WasClosed(n.calls, more[i].handle) && more[i].handle < n.next
    {
      assert all[i] in all;
    }
    CallsAppend(n.calls, more);
    forall h: nat | h < n.next
      ensures WasClosed(m.calls, h)
    {
      ClosedAppend(n.calls, more, h);
    }
  }

  lemma ReleaseKeepsHandles(s: State)
    requires HandlesKept(s.natives, s.capture) && ThreadsKept(s)
    ensures forall ok :: HandlesKept(Release(s, ok).natives, s.capture)
  {
    if !s.natives.closed && s.captureDone {
      ClosingEverythingKeepsHandles(s.natives, s.capture);
    }
  }

  lemma WakeKeepsHandles(s: State)
    requires HandlesKept(s.natives, s.capture)
    ensures forall ok :: HandlesKept(Wake(s, ok).natives, s.capture)
  {
    if !s.natives.closed {
      assert s.natives.port == Live(s.natives, s.capture)[|Live(s.natives, s.capture)| - 2];
      TouchingKeepsHandles(s.natives, s.capture, s.capture, [Touch(s.natives.port)]);
    }
  }

  lemma SystemCallsKeepPosition(s: State)
    ensures forall ok :: Wake(s, ok).capture == s.capture && Release(s, ok).capture == s.capture
  {
  }

  /** Handles with the same local one keep, whatever else the capture thread's position says. */
  lemma SameLocalHandle(n: Natives, pc: CapturePc, pc': CapturePc)
    requires HandlesKept(n, pc) && LocalHandle(pc') == LocalHandle(pc)
    ensures HandlesKept(n, pc')
  {
    assert Live(n, pc') == Live(n, pc);
  }

  lemma ReadingKeepsHandles(limits: Limits, s: State, e: Event)
    requires HandlesKept(s.natives, s.capture) && ThreadsKept(s)
    ensures HandlesKept(ReadStep(limits, s, e).natives, ReadStep(limits, s, e).capture)
    ensures e.ReadIdentity? ==> HandlesKept(IdentityStep(s, e.key).natives, IdentityStep(s, e.key).capture)
  {
    hide HandlesKept;
    var n, pc := s.natives, s.capture;
    var live := Live(n, pc);
    if !s.captureDone {
      assert live[|live| - 2] == n.port && live[|live| - 1] == n.jobQuery;
    }
    if pc.Reading? {
      TouchingKeepsHandles(n, pc, ReadStep(limits, s, e).capture, [Touch(n.port)]);
      SameLocalHandle(n, pc, CaptureFinally);
    }
    if pc.Opened? && e.ReadIdentity? {
      assert live[0] == pc.handle;
      TouchingKeepsHandles(n, pc, IdentityStep(s, e.key).capture, [Touch(pc.handle), Touch(n.jobQuery)]);
    }
  }

  lemma OpenKeepsHandles(s: State, succeeded: bool)
    requires HandlesKept(s.natives, s.capture)
    ensures HandlesKept(OpenStep(s, succeeded).natives, OpenStep(s, succeeded).capture)
  {
    hide HandlesKept;
    var n, pc := s.natives, s.capture;
    if pc.Observing? && succeeded {
      OpeningKeepsHandles(n, pc, OpenStep(s, true).capture);
    } else if pc.Observing? {
      SameLocalHandle(n, pc, CaptureFailing);
    }
  }

  lemma LateCaptureStepsKeepHandles(limits: Limits, s: State, e: Event)
    requires HandlesKept(s.natives, s.capture)
    ensures HandlesKept(CheckBirthStep(limits, s).natives, CheckBirthStep(limits, s).capture)
    ensures e.QueryImage? ==> HandlesKept(ImageStep(s, e.image).natives, ImageStep(s, e.image).capture)
    ensures HandlesKept(PublishStep(s).natives, PublishStep(s).capture)
    ensures e.CloseLocal? ==> HandlesKept(CloseLocalStep(s, e.ok).natives, CloseLocalStep(s, e.ok).capture)
  {
    hide HandlesKept;
    var n, pc := s.natives, s.capture;
    if pc.Timed? {
      SameLocalHandle(n, pc, CheckBirthStep(limits, s).capture);
    }
    if pc.Querying? && e.QueryImage? {
      assert Live(n, pc)[0] == pc.handle;
      TouchingKeepsHandles(n, pc, ImageStep(s, e.image).capture, [Touch(pc.handle)]);
    }
    if pc.Publishing? {
      SameLocalHandle(n, pc, ClosingLocal(pc.handle, false));
      PublishingKeepsHandles(n, pc, Reading);
    }
    if pc.ClosingLocal? && e.CloseLocal? {
      ClosingLocalKeepsHandles(n, pc, CloseLocalStep(s, e.ok).capture);
    }
  }

  lemma CaptureTailKeepsHandles(s: State, e: Event)
    requires HandlesKept(s.natives, s.capture) && ThreadsKept(s)
    ensures HandlesKept(CaptureTailStep(s, e).natives, CaptureTailStep(s, e).capture)
  {
    hide HandlesKept, ThreadsKept, Wake, Release;
    var t := CaptureTailStep(s, e);
    WakeKeepsHandles(s);
    ReleaseKeepsHandles(s);
    SystemCallsKeepPosition(s);
    if t.capture != s.capture {
      SameLocalHandle(t.natives, s.capture, t.capture);
    }
  }

  lemma AdmissionTailKeepsHandles(s: State, e: Event)
    requires HandlesKept(s.natives, s.capture) && ThreadsKept(s)
    ensures HandlesKept(AdmissionTailStep(s, e).natives, AdmissionTailStep(s, e).capture)
  {
    hide HandlesKept;
    WakeKeepsHandles(s);
    ReleaseKeepsHandles(s);
  }

  lemma StepKeepsHandles(limits: Limits, s: State, e: Event)
    requires HandlesKept(s.natives, s.capture) && ThreadsKept(s)
    ensures HandlesKept(Step(limits, s, e).natives, Step(limits, s, e).capture)
  {
    hide HandlesKept, ReadStep, OpenStep, IdentityStep, CheckBirthStep, ImageStep, PublishStep, CloseLocalStep;
    hide CaptureTailStep, AdmissionTailStep;
    LateCaptureStepsKeepHandles(limits, s, e);
    CaptureTailKeepsHandles(s, e);
    AdmissionTailKeepsHandles(s, e);
    if e.OpenProcess? {
      OpenKeepsHandles(s, e.succeeded);
    }
    ReadingKeepsHandles(limits, s, e);
    WakeKeepsHandles(s);
    ReleaseKeepsHandles(s);
  }

  lemma CaptureKeepsThreads(limits: Limits, s: State, e: Event)
    requires ThreadsKept(s)
    ensures ThreadsKept(ReadStep(limits, s, e))
    ensures e.OpenProcess? ==> ThreadsKept(OpenStep(s, e.succeeded))
    ensures e.ReadIdentity? ==> ThreadsKept(IdentityStep(s, e.key))
  {
  }

  lemma BirthKeepsThreads(limits: Limits, s: State, e: Event)
    requires ThreadsKept(s)
    ensures ThreadsKept(CheckBirthStep(limits, s)) && ThreadsKept(PublishStep(s))
    ensures e.QueryImage? ==> ThreadsKept(ImageStep(s, e.image))
    ensures e.CloseLocal? ==> ThreadsKept(CloseLocalStep(s, e.ok))
  {
  }

  lemma AdmissionKeepsThreads(limits: Limits, s: State, e: Event)
    requires ThreadsKept(s)
    ensures ThreadsKept(TakeNextStep(s)) && ThreadsKept(AdmitStep(limits, s)) && ThreadsKept(ClearStep(s))
    ensures e.Hash? ==> ThreadsKept(HashStep(s, e.kind))
  {
  }

  lemma WakingKeepsThreads(s: State)
    requires ThreadsKept(s)
    ensures ThreadsKept(Failed(s))
    ensures forall ok :: ThreadsKept(Wake(s, ok))
    ensures forall ok :: ThreadsKept(Release(s, ok))
    ensures forall ok ::
              Release(s, ok).captureDone == s.captureDone && Release(s, ok).admissionDone == s.admissionDone
              && Release(s, ok).capture == s.capture && Release(s, ok).admission == s.admission
              && (s.captureDone && s.admissionDone ==> Release(s, ok).natives.closed)
    ensures forall ok ::
              Wake(s, ok).captureDone == s.captureDone && Wake(s, ok).admissionDone == s.admissionDone
              && Wake(s, ok).capture == s.capture && Wake(s, ok).admission == s.admission
  {
  }

  lemma CaptureTailKeepsThreads(s: State, e: Event)
    requires ThreadsKept(s)
    ensures ThreadsKept(CaptureTailStep(s, e))
  {
    hide Wake, Release;
    WakingKeepsThreads(s);
  }

  lemma AdmissionTailKeepsThreads(s: State, e: Event)
    requires ThreadsKept(s)
    ensures ThreadsKept(AdmissionTailStep(s, e))
  {
    hide Wake, Release;
    WakingKeepsThreads(s);
  }

  lemma TailsKeepThreads(limits: Limits, s: State, e: Event)
    requires ThreadsKept(s)
    ensures ThreadsKept(CaptureTailStep(s, e)) && ThreadsKept(AdmissionTailStep(s, e))
    ensures forall ok :: ThreadsKept(Wake(s, ok)) && ThreadsKept(Release(s, ok))
    ensures ThreadsKept(Failed(s))
    ensures e.Finish? ==> ThreadsKept(FinishStep(limits, s, e.expected))
  {
    hide Wake, Release, CaptureTailStep, AdmissionTailStep;
    WakingKeepsThreads(s);
    CaptureTailKeepsThreads(s, e);
    AdmissionTailKeepsThreads(s, e);
  }

  lemma StepKeepsThreads(limits: Limits, s: State, e: Event)
    requires ThreadsKept(s)
    ensures ThreadsKept(Step(limits, s, e))
  {
    hide ThreadsKept, ReadStep, OpenStep, IdentityStep, CheckBirthStep, ImageStep, PublishStep, CloseLocalStep;
    hide TakeNextStep, HashStep, AdmitStep, ClearStep;
    hide CaptureTailStep, AdmissionTailStep, FinishStep, Wake, Release, Failed;
    CaptureKeepsThreads(limits, s, e);
    BirthKeepsThreads(limits, s, e);
    AdmissionKeepsThreads(limits, s, e);
    TailsKeepThreads(limits, s, e);
  }

  // ---------------------------------------------------------------- every run

  ghost predicate Inv(limits: Limits, s: State) {
    && PipelineKept(s)
    && RegistryKept(limits, s.evidence) && CaptureReady(limits, s)
    && HandlesKept(s.natives, s.capture) && ThreadsKept(s)
  }

  lemma InitialHandles()
    ensures HandlesKept(INITIAL.natives, INITIAL.capture)
  {
    var n := INITIAL.natives;
    assert Live(n, INITIAL.capture) == [0, 1];
    assert forall i | 0 <= i < |n.calls| :: n.calls[i].Open?;
    assert 0 in [0, 1] && 1 in [0, 1];
  }

  lemma InitialInv(limits: Limits)
    ensures Inv(limits, INITIAL)
  {
    hide HandlesKept;
    InitialHandles();
  }

  lemma StepKeepsInv(limits: Limits, s: State, e: Event)
    requires Inv(limits, s)
    ensures Inv(limits, Step(limits, s, e))
  {
    hide PipelineKept, RegistryKept, CaptureReady, HandlesKept, ThreadsKept, Step;
    StepKeepsPipeline(limits, s, e);
    StepKeepsRegistry(limits, s, e);
    StepKeepsHandles(limits, s, e);
    StepKeepsThreads(limits, s, e);
  }

  lemma {:induction false} AlwaysInv(limits: Limits, events: seq<Event>)
    ensures Inv(limits, Run(limits, events))
  {
    hide Inv, Step;
    if events == [] {
      InitialInv(limits);
    } else {
      AlwaysInv(limits, events[..|events| - 1]);
      StepKeepsInv(limits, Run(limits, events[..|events| - 1]), events[|events| - 1]);
    }
  }

  // ---------------------------------------------------------------- the theorems

  function Keys<T>(items: seq<T>, keyOf: T -> Key): (keys: seq<Key>)
    ensures |keys| == |items|
    ensures forall i :: 0 <= i < |keys| ==> keys[i] == keyOf(items[i])
  {
    if items == [] then [] else [keyOf(items[0])] + Keys(items[1..], keyOf)
  }

  function RecordKey(r: Record): Key {
    r.key
  }

  function BirthKey(b: Birth): Key {
    b.key
  }

  function RecordKeys(records: seq<Record>): seq<Key> {
    Keys(records, RecordKey)
  }

  function BirthKeys(births: seq<Birth>): seq<Key> {
    Keys(births, BirthKey)
  }

  /** What another thread sees of the pipeline: admitted, validating, pending. */
  function Observed(e: Evidence): seq<Key> {
    BirthKeys(e.births) + (if e.validating.Some? then [e.validating.value.key] else []) + RecordKeys(e.pending)
  }

  lemma InOrderParts(e: Evidence, held: Option<Record>)
    requires InOrder(e, held)
    ensures |e.births| <= |e.reservations| && RecordKeys(e.reservations)[..|e.births|] == BirthKeys(e.births)
    ensures held.Some? ==> |e.births| < |e.reservations| && RecordKeys(e.reservations)[|e.births|] == held.value.key
    ensures |e.births| + (if held.Some? then 1 else 0) + |e.pending| == |e.reservations|
  {
  }

  lemma InOrderPending(e: Evidence, held: Option<Record>)
    requires InOrder(e, held)
    ensures |e.pending| <= |e.reservations|
    ensures RecordKeys(e.reservations)[|e.reservations| - |e.pending|..] == RecordKeys(e.pending)
  {
    var k := |e.reservations| - |e.pending|;
    forall i | 0 <= i < |e.pending|
      ensures RecordKeys(e.reservations)[k..][i] == RecordKeys(e.pending)[i]
    {
      assert e.pending[i] == e.reservations[k + i];
    }
  }

  lemma ThreeParts(all: seq<Key>, front: seq<Key>, middle: seq<Key>, back: seq<Key>)
    requires |front| + |middle| + |back| == |all|
    requires all[..|front|] == front && all[|all| - |back|..] == back
    requires all[|front|..|front| + |middle|] == middle
    ensures all == front + middle + back
  {
  }

  lemma InOrderListed(e: Evidence, held: Option<Record>)
    requires InOrder(e, held)
    ensures RecordKeys(e.reservations)
            == BirthKeys(e.births) + (if held.Some? then [held.value.key] else []) + RecordKeys(e.pending)
  {
    hide InOrder;
    InOrderParts(e, held);
    InOrderPending(e, held);
    ThreeParts(RecordKeys(e.reservations), BirthKeys(e.births), if held.Some? then [held.value.key] else [],
               RecordKeys(e.pending));
  }

  /**
   The observed pipeline equals the capture order exactly outside two windows: between admitting a
   birth and clearing `validating`, and once a record was given up. The second opens only with a
   stop, or with a failure that has cleared `validating` but not yet published itself.
   */
  lemma ObservedPipeline(limits: Limits, events: seq<Event>)
    ensures var s := Run(limits, events);
            && (Observed(s.evidence) == RecordKeys(s.evidence.reservations)
                <==> !s.admission.ClearingAdmitted? && s.evidence.lost.None?)
            && (s.evidence.lost.Some? ==> s.stop || s.admission.AdmissionFailing?)
            && (!s.stop ==> (s.evidence.lost.Some? <==> s.admission.AdmissionFailing?))
  {
    AlwaysInv(limits, events);
    var s := Run(limits, events);
    InOrderListed(s.evidence, Held(s));
    if s.admission.ClearingAdmitted? || s.evidence.lost.Some? {
      assert |Observed(s.evidence)| != |RecordKeys(s.evidence.reservations)|;
    }
  }

  /** At any time, admitted births are a prefix of the capture order, in order. */
  lemma AdmittedInCaptureOrder(limits: Limits, events: seq<Event>)
    ensures var e := Run(limits, events).evidence;
            && BirthKeys(e.births) <= RecordKeys(e.reservations)
            && |e.reservations| <= |e.births| + 1 + |e.pending|
            && (forall i | 0 <= i < |e.reservations| :: e.reservations[i].ordinal == i + 1)
  {
    AlwaysInv(limits, events);
  }

  /** `reconciled(n)`: exactly `n` distinct births were captured, all of them admitted, each class within its cap. */
  lemma ReconciledMeansComplete(limits: Limits, events: seq<Event>, n: nat)
    requires Reconciled(limits, Run(limits, events), n)
    ensures var e := Run(limits, events).evidence;
            && BirthKeys(e.births) == RecordKeys(e.reservations)
            && |e.births| == n
            && (forall i, j | 0 <= i < j < n :: e.births[i].key != e.births[j].key)
            && (forall kind :: CountKind(e.births, kind) <= Cap(limits, kind))
            && e.lost.None?
  {
    AlwaysInv(limits, events);
  }

  lemma ErrorStays(limits: Limits, s: State, e: Event)
    ensures s.error ==> Step(limits, s, e).error
  {
  }

  lemma {:induction false} ErrorStaysEver(limits: Limits, events: seq<Event>, later: seq<Event>)
    requires Run(limits, events).error
    ensures Run(limits, events + later).error
  {
    hide Step;
    if later == [] {
      assert events + later == events;
    } else {
      var all := events + later;
      assert all[..|all| - 1] == events + later[..|later| - 1];
      ErrorStaysEver(limits, events, later[..|later| - 1]);
      ErrorStays(limits, Run(limits, all[..|all| - 1]), all[|all| - 1]);
    }
  }

  lemma RunSnoc(limits: Limits, events: seq<Event>, e: Event)
    ensures Run(limits, events + [e]) == Step(limits, Run(limits, events), e)
  {
    assert (events + [e])[..|events|] == events;
  }

  lemma FinishLooks(limits: Limits, s: State, n: nat)
    ensures var t := Step(limits, s, Finish(n)); t.stop && (!t.error <==> Reconciled(limits, s, n))
  {
  }

  /** In any run the counts that `reconciled` compares are equal only if the keys are, in their order. */
  lemma ReconciledExactly(limits: Limits, events: seq<Event>, n: nat)
    ensures var s := Run(limits, events);
            Reconciled(limits, s, n)
            <==> && !s.error
                 && 0 < n <= limits.processes
                 && |s.evidence.reservations| == |s.evidence.births| == n
                 && (forall i | 0 <= i < n :: s.evidence.births[i].key == s.evidence.reservations[i].key)
                 && s.evidence.pending == [] && s.evidence.validating.None?
  {
    hide Run;
    AdmittedInCaptureOrder(limits, events);
    var e := Run(limits, events).evidence;
    assert forall i | 0 <= i < |e.births| && BirthKeys(e.births) <= RecordKeys(e.reservations) ::
      BirthKeys(e.births)[i] == e.births[i].key == e.reservations[i].key;
  }

  /**
   `finish` stops the actors and leaves no error exactly if the evidence is complete. An error
   stays through whatever follows it, the wakes and the release that may fail themselves included,
   so no error in the end means that the evidence was complete when it looked.
   */
  lemma FinishDemandsCompleteness(limits: Limits, events: seq<Event>, n: nat, later: seq<Event>)
    ensures var s, t := Run(limits, events), Run(limits, events + [Finish(n)]);
            && t.stop
            && (!t.error
                <==> && !s.error
                     && 0 < n <= limits.processes
                     && |s.evidence.reservations| == |s.evidence.births| == n
                     && (forall i | 0 <= i < n :: s.evidence.births[i].key == s.evidence.reservations[i].key)
                     && s.evidence.pending == [] && s.evidence.validating.None?)
            && (t.error ==> Run(limits, events + [Finish(n)] + later).error)
  {
    hide Step, Reconciled, Run;
    RunSnoc(limits, events, Finish(n));
    FinishLooks(limits, Run(limits, events), n);
    ReconciledExactly(limits, events, n);
    if Run(limits, events + [Finish(n)]).error {
      ErrorStaysEver(limits, events + [Finish(n)], later);
    }
  }

  /** No handle is ever touched, closed or posted to after it was closed; so none is closed twice. */
  lemma HandlesNeverReused(limits: Limits, events: seq<Event>, i: nat, j: nat)
    requires i < j < |Run(limits, events).natives.calls|
    requires Run(limits, events).natives.calls[i].Close?
    ensures Run(limits, events).natives.calls[j].handle != Run(limits, events).natives.calls[i].handle
  {
    AlwaysInv(limits, events);
  }

  /** When both threads are gone every handle ever opened has been closed, with or without the owner's help. */
  lemma ExitClosesEverything(limits: Limits, events: seq<Event>, h: Handle)
    requires var s := Run(limits, events);
             s.capture.CaptureExited? && s.admission.AdmissionExited? && h < s.natives.next
    ensures WasClosed(Run(limits, events).natives.calls, h)
  {
    AlwaysInv(limits, events);
  }

  /** `h` is owned by the registry, or is the port or the job handle before the release. */
  predicate Shared(n: Natives, h: Handle) {
    h in n.handles || (!n.closed && (h == n.port || h == n.jobQuery))
  }

  lemma ReadingKeepsShared(limits: Limits, s: State, e: Event, h: Handle)
    requires Shared(s.natives, h)
    ensures Shared(ReadStep(limits, s, e).natives, h) && Shared(CheckBirthStep(limits, s).natives, h)
  {
  }

  lemma CaptureKeepsShared(limits: Limits, s: State, e: Event, h: Handle)
    requires Shared(s.natives, h)
    ensures e.OpenProcess? ==> Shared(OpenStep(s, e.succeeded).natives, h)
    ensures e.ReadIdentity? ==> Shared(IdentityStep(s, e.key).natives, h)
    ensures e.QueryImage? ==> Shared(ImageStep(s, e.image).natives, h)
    ensures e.CloseLocal? ==> Shared(CloseLocalStep(s, e.ok).natives, h)
  {
  }

  lemma SharedUntilBothDone(limits: Limits, s: State, e: Event, h: Handle)
    requires !(s.captureDone && s.admissionDone) && Shared(s.natives, h)
    ensures Shared(Step(limits, s, e).natives, h)
  {
    hide ReadStep, OpenStep, IdentityStep, CheckBirthStep, ImageStep, CloseLocalStep;
    ReadingKeepsShared(limits, s, e, h);
    CaptureKeepsShared(limits, s, e, h);
    assert forall ok :: Release(s, ok) == s;
  }

  lemma SharedIsOpen(n: Natives, pc: CapturePc, h: Handle)
    requires HandlesKept(n, pc) && Shared(n, h)
    ensures !WasClosed(n.calls, h)
  {
    assert h in Live(n, pc);
  }

  /** A registered handle, the port or the job handle stays open through every step before both threads are done. */
  lemma SharedHandlesOutliveThreads(limits: Limits, events: seq<Event>, e: Event, h: Handle)
    requires var s := Run(limits, events);
             && (h in s.natives.handles || (!s.natives.closed && (h == s.natives.port || h == s.natives.jobQuery)))
             && !(s.captureDone && s.admissionDone)
    ensures !WasClosed(Step(limits, Run(limits, events), e).natives.calls, h)
  {
    var s, t := Run(limits, events), Step(limits, Run(limits, events), e);
    AlwaysInv(limits, events);
    StepKeepsHandles(limits, s, e);
    SharedUntilBothDone(limits, s, e, h);
    SharedIsOpen(t.natives, t.capture, h);
  }
}
