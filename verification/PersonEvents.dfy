/** The producer: committed person events, deduplicated per camera and retained by append identity. */
module PersonEvents {
  import opened Prelude
  import opened RetainedTable

  const MAX_EVENT_ROWS: nat := 100_000

  type Camera = nat
  type Frame = nat
  type EventId = nat

  datatype Analytics = Analytics(enabled: bool, lastFrame: Option<Frame>)

  datatype PersonEvent = PersonEvent(camera: Camera, frame: Frame)

  /** `next` is the id the next inserted row takes; ids are never reused. */
  datatype Source = Source(cameras: map<Camera, Analytics>, events: map<EventId, PersonEvent>, next: EventId)

  predicate Present(events: map<EventId, PersonEvent>, e: PersonEvent) {
    exists id :: id in events && events[id] == e
  }

  /** One analysed frame; `emits` says that it is to be emitted and shows somebody. */
  function Recorded(s: Source, camera: Camera, frame: Frame, emits: bool): Source {
    if camera !in s.cameras || !s.cameras[camera].enabled || s.cameras[camera].lastFrame == Some(frame) then s
    else
      var seen := s.(cameras := s.cameras[camera := s.cameras[camera].(lastFrame := Some(frame))]);
      if !emits then seen
      else if Present(s.events, PersonEvent(camera, frame)) then
        seen.(events := Newest(s.events, MAX_EVENT_ROWS))
      else
        seen.(events := Newest(s.events[s.next := PersonEvent(camera, frame)], MAX_EVENT_ROWS), next := s.next + 1)
  }

  ghost predicate SourceSound(s: Source) {
    && s.next >= 1
    && (forall id | id in s.events :: 1 <= id < s.next)
    && |s.events| <= MAX_EVENT_ROWS
    && (forall i, j | i in s.events && j in s.events && i != j :: s.events[i] != s.events[j])
  }

  /** Every recorded frame keeps the table bounded and free of duplicates, and drops the oldest ids first. */
  lemma RecordKeepsSource(s: Source, camera: Camera, frame: Frame, emits: bool)
    requires SourceSound(s)
    ensures var t := Recorded(s, camera, frame, emits);
            && SourceSound(t)
            && t.next >= s.next
            && (forall id | id in t.events && id < s.next :: id in s.events && t.events[id] == s.events[id])
            && (forall lost, kept | lost in s.events && lost !in t.events && kept in t.events :: lost < kept)
            && (t.events.Keys - s.events.Keys <= {s.next})
  {
    var t := Recorded(s, camera, frame, emits);
    var grown := if t.next > s.next then s.events[s.next := PersonEvent(camera, frame)] else s.events;
    NewestCount(grown, MAX_EVENT_ROWS);
    SmallTableKept(s.events, MAX_EVENT_ROWS);
    forall lost, kept | lost in s.events && lost !in t.events && kept in t.events
      ensures lost < kept
    {
      if kept <= lost {
        NewestUpward(grown.Keys, kept, lost, MAX_EVENT_ROWS);
      }
    }
  }

  lemma OlderStays(keys: set<EventId>, id: EventId, k: EventId, other: EventId)
    requires id !in keys && k in keys && other in keys && other < k
    ensures AmongNewest(keys + {id}, k, |keys|)
  {
    assert keys + {id} == (keys + {id} - {other, k}) + {other, k};
    SubsetCount(Newer(keys + {id}, k), keys + {id} - {other, k});
  }

  lemma OldestGoes(keys: set<EventId>, id: EventId, k: EventId)
    requires id !in keys && k in keys && k < id && forall other | other in keys :: k <= other
    ensures !AmongNewest(keys + {id}, k, |keys|)
  {
    assert Newer(keys + {id}, k) == keys + {id} - {k};
  }

  /** Retention of a full table with one row more drops the oldest row and no other. */
  lemma FullTableDropsOldest(table: map<EventId, PersonEvent>, id: EventId, e: PersonEvent, count: nat)
    requires |table| == count && count > 0 && forall other | other in table :: other < id
    ensures id in Newest(table[id := e], count)
    ensures forall k | k in table :: k in Newest(table[id := e], count) <==> exists other | other in table :: other < k
  {
    hide AmongNewest;
    var keys := table.Keys;
    assert table[id := e].Keys == keys + {id} && |keys| == count;
    NewestHeld(keys, id, count);
    forall k | k in table
      ensures AmongNewest(keys + {id}, k, count) <==> exists other | other in table :: other < k
    {
      if other :| other in table && other < k {
        OlderStays(keys, id, k, other);
      } else {
        OldestGoes(keys, id, k);
      }
    }
  }

  lemma NewestHeld(keys: set<EventId>, id: EventId, count: nat)
    requires count > 0 && forall other | other in keys :: other < id
    ensures AmongNewest(keys + {id}, id, count)
  {
    assert Newer(keys + {id}, id) == {};
  }

  /**
   What one analysed frame does. It is recorded as the camera's last frame exactly if the camera is
   known, analytics are on and it is not that frame already; it becomes an event, under the next id,
   exactly if besides it is to be emitted and the camera has no event of it; and only then, in a
   table of 100,000 events, the oldest event goes.
   */
  lemma RecordedExact(s: Source, camera: Camera, frame: Frame, emits: bool)
    requires SourceSound(s)
    ensures var t := Recorded(s, camera, frame, emits);
            var analysed := camera in s.cameras && s.cameras[camera].enabled && s.cameras[camera].lastFrame != Some(frame);
            var inserted := analysed && emits && forall id | id in s.events :: s.events[id] != PersonEvent(camera, frame);
            && t.cameras == (if analysed then s.cameras[camera := Analytics(true, Some(frame))] else s.cameras)
            && (!inserted ==> t.next == s.next && t.events == s.events)
            && (inserted ==>
                  && t.next == s.next + 1 && s.next in t.events && t.events[s.next] == PersonEvent(camera, frame)
                  && (|s.events| < 100_000 ==> t.events == s.events[s.next := PersonEvent(camera, frame)])
                  && (forall id | id in t.events && id != s.next :: id in s.events && t.events[id] == s.events[id])
                  && (|s.events| == 100_000 ==>
                        forall id | id in s.events :: id in t.events <==> exists other | other in s.events :: other < id))
  {
    SmallTableKept(s.events, 100_000);
    var grown := s.events[s.next := PersonEvent(camera, frame)];
    if |s.events| < 100_000 {
      SmallTableKept(grown, 100_000);
    } else {
      FullTableDropsOldest(s.events, s.next, PersonEvent(camera, frame), 100_000);
    }
  }

  /** The same frame twice, or a disabled camera, records nothing. */
  lemma RecordIdempotent(s: Source, camera: Camera, frame: Frame, emits: bool, again: bool)
    ensures Recorded(Recorded(s, camera, frame, emits), camera, frame, again) == Recorded(s, camera, frame, emits)
  {
  }

  class OperatorEventStore {
    var cameras: map<Camera, Analytics>
    var events: map<EventId, PersonEvent>
    var next: EventId

    constructor ()
      ensures State() == Source(map[], map[], 1)
    {
      cameras, events, next := map[], map[], 1;
    }

    function State(): Source
      reads this
    {
      Source(cameras, events, next)
    }

    method Configure(camera: Camera, enabled: bool)
      modifies this
      ensures State() == old(State()).(cameras := old(cameras)[camera :=
                Analytics(enabled, if camera in old(cameras) then old(cameras)[camera].lastFrame else None)])
    {
      cameras := cameras[camera := Analytics(enabled, if camera in cameras then cameras[camera].lastFrame else None)];
    }

    method Record(camera: Camera, frame: Frame, emits: bool) returns (inserted: bool)
      requires SourceSound(State())
      modifies this
      ensures State() == Recorded(old(State()), camera, frame, emits)
      ensures SourceSound(State())
      ensures inserted <==> next > old(next)
    {
      RecordKeepsSource(State(), camera, frame, emits);
      if camera !in cameras || !cameras[camera].enabled || cameras[camera].lastFrame == Some(frame) {
        return false;
      }
      cameras := cameras[camera := cameras[camera].(lastFrame := Some(frame))];
      inserted := false;
      if emits {
        var e := PersonEvent(camera, frame);
        if !Present(events, e) {
          events := events[next := e];
          next := next + 1;
          inserted := true;
        }
        events := Newest(events, MAX_EVENT_ROWS);
      }
    }
  }
}
