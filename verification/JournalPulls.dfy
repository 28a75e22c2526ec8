/** What one pull hands out, stated about the rows themselves and not about the loop that picks them. */
module JournalPulls {
  import opened Prelude
  import opened PersonEvents
  import opened DeliveryJournal
  import opened JournalInvariant

  ghost predicate Ascends(rows: seq<Sequence>) {
    forall i, k | 0 <= i < k < |rows| :: rows[i] < rows[k]
  }

  /** The row is unanswered, of `c`, and has attempts left. */
  predicate Waits(deliveries: map<Sequence, Delivery>, c: ConnectionId, s: Sequence) {
    PendingFor(deliveries, c, s) && deliveries[s].attempt < MAX_ATTEMPTS
  }

  lemma FetchStep(deliveries: map<Sequence, Delivery>, c: ConnectionId, from: Sequence, past: Sequence, k: nat)
    requires from < past && k > 0
    ensures Deliverable(deliveries, c, from, past, k)
         == if Waits(deliveries, c, from) then [from] + Deliverable(deliveries, c, from + 1, past, k - 1)
            else Deliverable(deliveries, c, from + 1, past, k)
  {
  }

  /** Every waiting row from `from` up to `past` is among `rows`, or behind the last of `k` of them. */
  ghost predicate Complete(
      deliveries: map<Sequence, Delivery>, c: ConnectionId, from: Sequence, past: Sequence, k: nat, rows: seq<Sequence>)
  {
    && |rows| <= k
    && forall s | from <= s < past && Waits(deliveries, c, s) && s !in rows :: |rows| == k && (k > 0 ==> rows[k - 1] < s)
  }

  lemma FrontFetched(
      deliveries: map<Sequence, Delivery>, c: ConnectionId, from: Sequence, past: Sequence, k: nat, rest: seq<Sequence>)
    requires k > 0 && Complete(deliveries, c, from + 1, past, k - 1, rest)
    ensures Complete(deliveries, c, from, past, k, [from] + rest)
  {
    hide Waits;
    var rows := [from] + rest;
    forall s | from <= s < past && Waits(deliveries, c, s) && s !in rows
      ensures |rows| == k && rows[k - 1] < s
    {
      assert rows[0] == from && rows[1..] == rest;
      assert s !in rest && s != from;
      assert k > 1 ==> rows[k - 1] == rest[k - 2];
    }
  }

  lemma NoneWaits(deliveries: map<Sequence, Delivery>, c: ConnectionId, from: Sequence, past: Sequence, k: nat)
    requires from >= past || k == 0
    ensures Deliverable(deliveries, c, from, past, k) == [] && Complete(deliveries, c, from, past, k, [])
  {
  }

  lemma PassedOver(
      deliveries: map<Sequence, Delivery>, c: ConnectionId, from: Sequence, past: Sequence, k: nat, rows: seq<Sequence>)
    requires !Waits(deliveries, c, from) && Complete(deliveries, c, from + 1, past, k, rows)
    ensures Complete(deliveries, c, from, past, k, rows)
  {
    hide Waits;
  }

  /** The fetch leaves out nothing that waits, but for rows past a full batch. */
  lemma {:induction false} FetchesAll(
      deliveries: map<Sequence, Delivery>, c: ConnectionId, from: Sequence, past: Sequence, k: nat)
    ensures Complete(deliveries, c, from, past, k, Deliverable(deliveries, c, from, past, k))
    decreases past - from
  {
    hide Waits, Deliverable, Complete;
    if from >= past || k == 0 {
      NoneWaits(deliveries, c, from, past, k);
    } else {
      FetchStep(deliveries, c, from, past, k);
      if Waits(deliveries, c, from) {
        FetchesAll(deliveries, c, from + 1, past, k - 1);
        FrontFetched(deliveries, c, from, past, k, Deliverable(deliveries, c, from + 1, past, k - 1));
      } else {
        FetchesAll(deliveries, c, from + 1, past, k);
        PassedOver(deliveries, c, from, past, k, Deliverable(deliveries, c, from + 1, past, k));
      }
    }
  }

  /** The rows that may go out now, in their order. */
  function ReadyOf(j: Journal, c: ConnectionId, rows: seq<Sequence>, known: set<Camera>, now: int): (ready: seq<Sequence>)
    requires c in j.connections && forall s | s in rows :: s in j.deliveries
    ensures forall s :: s in ready <==> s in rows && Ready(j, c, s, known, now)
  {
    if rows == [] then []
    else if Ready(j, c, rows[0], known, now) then [rows[0]] + ReadyOf(j, c, rows[1..], known, now)
    else ReadyOf(j, c, rows[1..], known, now)
  }

  lemma AscendsFrom(first: Sequence, rest: seq<Sequence>)
    requires Ascends(rest) && forall s | s in rest :: first < s
    ensures Ascends([first] + rest)
  {
    var all := [first] + rest;
    forall i, k | 0 <= i < k < |all|
      ensures all[i] < all[k]
    {
      assert all[k] == rest[k - 1] && rest[k - 1] in rest;
    }
  }

  lemma {:induction false} ReadyAscends(j: Journal, c: ConnectionId, rows: seq<Sequence>, known: set<Camera>, now: int)
    requires c in j.connections && Ascends(rows) && forall s | s in rows :: s in j.deliveries
    ensures Ascends(ReadyOf(j, c, rows, known, now))
  {
    if rows != [] {
      hide Ready;
      ReadyAscends(j, c, rows[1..], known, now);
      assert forall s | s in rows[1..] :: rows[0] < s;
      AscendsFrom(rows[0], ReadyOf(j, c, rows[1..], known, now));
    }
  }

  /** Handing one row out leaves the readiness of every later row as it is. */
  lemma {:induction false} ReadyStays(
      j: Journal, c: ConnectionId, out: Sequence, rows: seq<Sequence>, known: set<Camera>, now: int)
    requires c in j.connections && out in j.deliveries && out !in rows && forall s | s in rows :: s in j.deliveries
    ensures ReadyOf(HandOut(j, c, out, now).journal, c, rows, known, now) == ReadyOf(j, c, rows, known, now)
  {
    if rows != [] {
      ReadyStays(j, c, out, rows[1..], known, now);
    }
  }

  /** `picks` are logged as handed out, in that order. */
  ghost predicate LogsPicks(j: Journal, log: seq<Happening>, c: ConnectionId, picks: seq<Sequence>, now: int) {
    && |log| == |picks|
    && (forall i | 0 <= i < |picks| ::
          && picks[i] in j.deliveries
          && log[i] == HandedOut(c, picks[i], j.deliveries[picks[i]].attempt + 1, j.deliveries[picks[i]].sent, now))
  }

  /** `picks` and no others gain an attempt. */
  ghost predicate CountsPicks(before: map<Sequence, Delivery>, after: map<Sequence, Delivery>, picks: seq<Sequence>) {
    && after.Keys == before.Keys
    && (forall s | s in before ::
          after[s] == if s in picks then before[s].(attempt := before[s].attempt + 1, sent := true) else before[s])
  }

  /** `picks` and no others are leased anew. */
  ghost predicate LeasesPicks(j: Journal, after: map<LeaseKey, int>, c: ConnectionId, picks: seq<Sequence>, now: int)
    requires forall s | s in picks :: s in j.deliveries
  {
    && (forall key :: key in after <==> key in j.leases || (key.0 == c && key.1 in picks))
    && (forall key | key in after ::
          after[key]
          == if key.0 == c && key.1 in picks then now + Backoff(j.deliveries[key.1].attempt + 1) else j.leases[key])
  }

  /** `picks` and no others are handed out, in that order. */
  ghost predicate HandsOut(j: Journal, e: Effect, c: ConnectionId, picks: seq<Sequence>, now: int) {
    && (forall s | s in picks :: s in j.deliveries)
    && LogsPicks(j, e.log, c, picks, now)
    && e.journal == j.(deliveries := e.journal.deliveries, leases := e.journal.leases)
    && CountsPicks(j.deliveries, e.journal.deliveries, picks)
    && LeasesPicks(j, e.journal.leases, c, picks, now)
  }

  lemma NothingOut(j: Journal, c: ConnectionId, now: int)
    ensures HandsOut(j, Effect(j, []), c, [], now)
  {
  }

  lemma OneMoreLogged(j: Journal, c: ConnectionId, out: Sequence, log: seq<Happening>, picks: seq<Sequence>, now: int)
    requires out in j.deliveries && out !in picks
    requires LogsPicks(HandOut(j, c, out, now).journal, log, c, picks, now)
    ensures LogsPicks(j, HandOut(j, c, out, now).log + log, c, [out] + picks, now)
  {
    hide Backoff;
    var all, longer := [out] + picks, HandOut(j, c, out, now).log + log;
    forall i | 0 <= i < |all|
      ensures all[i] in j.deliveries
      ensures longer[i] == HandedOut(c, all[i], j.deliveries[all[i]].attempt + 1, j.deliveries[all[i]].sent, now)
    {
      if i > 0 {
        assert all[i] == picks[i - 1] && longer[i] == log[i - 1] && picks[i - 1] in picks;
      }
    }
  }

  lemma OneMoreCounted(
      j: Journal, c: ConnectionId, out: Sequence, after: map<Sequence, Delivery>, picks: seq<Sequence>, now: int)
    requires out in j.deliveries && out !in picks
    requires CountsPicks(HandOut(j, c, out, now).journal.deliveries, after, picks)
    ensures CountsPicks(j.deliveries, after, [out] + picks)
  {
    hide Backoff;
    assert forall s :: s in [out] + picks <==> s == out || s in picks;
  }

  lemma OneMoreLeased(
      j: Journal, c: ConnectionId, out: Sequence, after: map<LeaseKey, int>, picks: seq<Sequence>, now: int)
    requires out in j.deliveries && out !in picks && forall s | s in picks :: s in j.deliveries
    requires LeasesPicks(HandOut(j, c, out, now).journal, after, c, picks, now)
    ensures LeasesPicks(j, after, c, [out] + picks, now)
  {
    hide Backoff;
    assert forall s :: s in [out] + picks <==> s == out || s in picks;
  }

  lemma OneMoreOut(j: Journal, c: ConnectionId, out: Sequence, rest: Effect, picks: seq<Sequence>, now: int)
    requires out in j.deliveries && out !in picks
    requires HandsOut(HandOut(j, c, out, now).journal, rest, c, picks, now)
    ensures HandsOut(j, Effect(rest.journal, HandOut(j, c, out, now).log + rest.log), c, [out] + picks, now)
  {
    hide Backoff, LogsPicks, CountsPicks, LeasesPicks;
    assert forall s :: s in [out] + picks <==> s == out || s in picks;
    OneMoreLogged(j, c, out, rest.log, picks, now);
    OneMoreCounted(j, c, out, rest.journal.deliveries, picks, now);
    OneMoreLeased(j, c, out, rest.journal.leases, picks, now);
  }

  lemma {:induction false} PullRowsExact(
      j: Journal, c: ConnectionId, rows: seq<Sequence>, limit: nat, known: set<Camera>, now: int)
    requires c in j.connections && Ascends(rows) && forall s | s in rows :: s in j.deliveries
    ensures var ready := ReadyOf(j, c, rows, known, now);
            HandsOut(j, PullRows(j, c, rows, limit, known, now), c,
                     if |ready| > limit then ready[..limit] else ready, now)
    decreases |rows|
  {
    hide HandsOut, Ready;
    NothingOut(j, c, now);
    if rows != [] && limit > 0 {
      var ready := ReadyOf(j, c, rows, known, now);
      var later := ReadyOf(j, c, rows[1..], known, now);
      assert rows[0] !in rows[1..];
      if Ready(j, c, rows[0], known, now) {
        var one := HandOut(j, c, rows[0], now);
        ReadyStays(j, c, rows[0], rows[1..], known, now);
        PullRowsExact(one.journal, c, rows[1..], limit - 1, known, now);
        var picks := if |later| > limit - 1 then later[..limit - 1] else later;
        assert rows[0] !in picks;
        assert (if |ready| > limit then ready[..limit] else ready) == [rows[0]] + picks;
        OneMoreOut(j, c, rows[0], PullRows(one.journal, c, rows[1..], limit - 1, known, now), picks, now);
      } else {
        PullRowsExact(j, c, rows[1..], limit, known, now);
      }
    } else if limit == 0 {
      assert ReadyOf(j, c, rows, known, now)[..0] == [];
    }
  }

  /**
   An admitted pull fetches the first hundred unanswered deliveries of its connection with fewer than
   eight attempts, oldest first. Of these, the ones whose lease is over and whose camera is granted and
   known are ready, and exactly the first `limit` of them are handed out, in order: each gains an
   attempt, counts as sent and is leased anew. Nothing else in the journal changes.
   */
  lemma PullExact(j: Journal, c: ConnectionId, token: Token, limit: int, known: set<Camera>, now: int)
    returns (fetched: seq<Sequence>, ready: seq<Sequence>, handed: seq<Sequence>)
    requires Inv(j) && 1 <= limit <= 20 && Machine(j, c, token, Neural, now) == None
    ensures c in j.connections
    ensures |fetched| <= 100 && forall i, k | 0 <= i < k < |fetched| :: fetched[i] < fetched[k]
    ensures forall s | s in fetched ::
              && s in j.deliveries
              && j.deliveries[s].connection == c && j.deliveries[s].response.None? && j.deliveries[s].attempt < 8
    ensures forall s | && s in j.deliveries
                       && j.deliveries[s].connection == c && j.deliveries[s].response.None? && j.deliveries[s].attempt < 8
                       && s !in fetched :: |fetched| == 100 && fetched[99] < s
    ensures forall i, k | 0 <= i < k < |ready| :: ready[i] < ready[k]
    ensures forall s :: s in ready <==>
              && s in fetched
              && (if (c, s) in j.leases then j.leases[(c, s)] else 0) <= now
              && j.deliveries[s].camera in j.connections[c].grants && j.deliveries[s].camera in known
    ensures handed == if |ready| > limit then ready[..limit] else ready
    ensures Pull(j, c, token, limit, known, now).Ok?
    ensures var e := Pull(j, c, token, limit, known, now).value;
            && |e.log| == |handed|
            && (forall i | 0 <= i < |handed| ::
                  && handed[i] in j.deliveries
                  && e.log[i]
                     == HandedOut(c, handed[i], j.deliveries[handed[i]].attempt + 1, j.deliveries[handed[i]].sent, now))
            && e.journal == j.(deliveries := e.journal.deliveries, leases := e.journal.leases)
            && e.journal.deliveries.Keys == j.deliveries.Keys
            && (forall s | s in j.deliveries ::
                  e.journal.deliveries[s]
                  == if s in handed then j.deliveries[s].(attempt := j.deliveries[s].attempt + 1, sent := true)
                     else j.deliveries[s])
            && (forall key :: key in e.journal.leases <==> key in j.leases || (key.0 == c && key.1 in handed))
            && (forall key | key in e.journal.leases ::
                  e.journal.leases[key]
                  == if key.0 == c && key.1 in handed then now + Backoff(j.deliveries[key.1].attempt + 1)
                     else j.leases[key])
  {
    hide Inv, Deliverable, Pull, Ready, ReadyOf, Backoff, Machine, LogsPicks, CountsPicks, LeasesPicks;
    OpenIsStored(j, c, token, now);
    fetched := FetchExact(j, c);
    ready := ReadyExact(j, c, fetched, known, now);
    PulledReady(j, c, token, limit, known, now, fetched, ready);
    handed := if |ready| > limit then ready[..limit] else ready;
    var e := Pull(j, c, token, limit, known, now).value;
    Logged(j, e.log, c, handed, now);
    Counted(j.deliveries, e.journal.deliveries, handed);
    Leased(j, e.journal.leases, c, handed, now);
  }

  lemma FetchExact(j: Journal, c: ConnectionId) returns (fetched: seq<Sequence>)
    requires Inv(j)
    ensures fetched == Deliverable(j.deliveries, c, 0, j.nextDelivery, SCAN)
    ensures |fetched| <= 100 && forall i, k | 0 <= i < k < |fetched| :: fetched[i] < fetched[k]
    ensures forall s | s in fetched ::
              && s in j.deliveries
              && j.deliveries[s].connection == c && j.deliveries[s].response.None? && j.deliveries[s].attempt < 8
    ensures forall s | && s in j.deliveries
                       && j.deliveries[s].connection == c && j.deliveries[s].response.None? && j.deliveries[s].attempt < 8
                       && s !in fetched :: |fetched| == 100 && fetched[99] < s
  {
    hide Inv, Deliverable;
    fetched := Deliverable(j.deliveries, c, 0, j.nextDelivery, SCAN);
    FetchesAll(j.deliveries, c, 0, j.nextDelivery, SCAN);
    AllKnown(j);
  }

  lemma ReadyExact(j: Journal, c: ConnectionId, fetched: seq<Sequence>, known: set<Camera>, now: int)
    returns (ready: seq<Sequence>)
    requires c in j.connections && Ascends(fetched) && forall s | s in fetched :: s in j.deliveries
    ensures ready == ReadyOf(j, c, fetched, known, now)
    ensures forall i, k | 0 <= i < k < |ready| :: ready[i] < ready[k]
    ensures forall s :: s in ready <==>
              && s in fetched
              && (if (c, s) in j.leases then j.leases[(c, s)] else 0) <= now
              && j.deliveries[s].camera in j.connections[c].grants && j.deliveries[s].camera in known
  {
    ready := ReadyOf(j, c, fetched, known, now);
    hide ReadyOf;
    ReadyAscends(j, c, fetched, known, now);
  }

  lemma PulledReady(
      j: Journal, c: ConnectionId, token: Token, limit: int, known: set<Camera>, now: int, fetched: seq<Sequence>,
      ready: seq<Sequence>)
    requires 1 <= limit <= 20 && Machine(j, c, token, Neural, now) == None && c in j.connections
    requires Ascends(fetched) && forall s | s in fetched :: s in j.deliveries
    requires fetched == Deliverable(j.deliveries, c, 0, j.nextDelivery, SCAN)
    requires ready == ReadyOf(j, c, fetched, known, now)
    ensures var r := Pull(j, c, token, limit, known, now);
            r.Ok? && HandsOut(j, r.value, c, if |ready| > limit then ready[..limit] else ready, now)
  {
    hide HandsOut, Deliverable, PullRows, ReadyOf, Machine;
    PullRowsExact(j, c, fetched, limit, known, now);
  }

  lemma Logged(j: Journal, log: seq<Happening>, c: ConnectionId, picks: seq<Sequence>, now: int)
    requires LogsPicks(j, log, c, picks, now)
    ensures |log| == |picks|
    ensures forall i | 0 <= i < |picks| ::
              && picks[i] in j.deliveries
              && log[i] == HandedOut(c, picks[i], j.deliveries[picks[i]].attempt + 1, j.deliveries[picks[i]].sent, now)
  {
  }

  lemma Counted(before: map<Sequence, Delivery>, after: map<Sequence, Delivery>, picks: seq<Sequence>)
    requires CountsPicks(before, after, picks)
    ensures after.Keys == before.Keys
    ensures forall s | s in before ::
              after[s] == if s in picks then before[s].(attempt := before[s].attempt + 1, sent := true) else before[s]
  {
  }

  lemma Leased(j: Journal, after: map<LeaseKey, int>, c: ConnectionId, picks: seq<Sequence>, now: int)
    requires (forall s | s in picks :: s in j.deliveries) && LeasesPicks(j, after, c, picks, now)
    ensures forall key :: key in after <==> key in j.leases || (key.0 == c && key.1 in picks)
    ensures forall key | key in after ::
              after[key]
              == if key.0 == c && key.1 in picks then now + Backoff(j.deliveries[key.1].attempt + 1) else j.leases[key]
  {
  }

  lemma OpenIsStored(j: Journal, c: ConnectionId, token: Token, now: int)
    requires Machine(j, c, token, Neural, now) == None
    ensures c in j.connections
  {
  }

  lemma AllKnown(j: Journal)
    requires Inv(j)
    ensures forall s | s in j.deliveries :: s < j.nextDelivery
  {
    forall s | s in j.deliveries
      ensures s < j.nextDelivery
    {
      SequenceKnown(j, s);
    }
  }

  /** A pull with a bad limit is refused before anything else, and an inadmissible one for what `Machine` finds. */
  lemma PullRefused(j: Journal, c: ConnectionId, token: Token, limit: int, known: set<Camera>, now: int)
    ensures limit < 1 || limit > 20 ==> Pull(j, c, token, limit, known, now) == Err(Invalid)
    ensures 1 <= limit <= 20 && Machine(j, c, token, Neural, now).Some? ==>
              Pull(j, c, token, limit, known, now) == Err(Machine(j, c, token, Neural, now).value)
  {
  }
}
