/** What every run of the delivery journal guarantees, read off its trace. */
module JournalTheorems {
  import opened Prelude
  import opened RetainedTable
  import opened PersonEvents
  import opened DeliveryJournal
  import opened JournalInvariant
  import opened JournalTrace

  /** After any run the journal keeps its bounds, its references and its per-row facts. */
  lemma WholeJournalInvariant(actions: seq<Action>)
    ensures Inv(Run(actions).journal)
    ensures var j := Run(actions).journal;
            && |j.connections| <= 16 && |j.received| <= 10_000 && |Answered(j.deliveries)| <= 10_000
            && (forall c: ConnectionId :: |Pending(j.deliveries, c)| <= 1_000)
            && (forall c | c in j.connections && j.connections[c].enabled :: j.connections[c].grants != {})
            && (forall s | s in j.deliveries ::
                  var d := j.deliveries[s];
                  && d.connection in j.connections && d.event <= j.connections[d.connection].cursor
                  && d.attempt <= 8 && (d.response.Some? ==> d.attempt >= 1) && (d.attempt >= 1 ==> d.sent)
                  && (d.response.None? ==> d.camera in j.connections[d.connection].grants))
            && (forall key | key in j.leases ::
                  key.1 in j.deliveries && j.deliveries[key.1].connection == key.0
                  && j.deliveries[key.1].response.None?)
            && (forall s | s in j.received :: j.received[s].connection in j.connections)
  {
    AlwaysSound(actions);
    hide Run, Pending, Answered, SourceSound, ForwardingMirrors, RowsMirror, LogSound, InEventOrder;
    var j := Run(actions).journal;
    assert forall s | s in j.deliveries :: DeliverySound(j, s);
  }

  // ---------------------------------------------------------------- hand-outs

  /** While nothing voids it, the lease of a hand-out at `i` keeps covering `s`. */
  lemma {:induction false} LeaseHolds(log: seq<Happening>, i: nat, n: nat, s: Sequence)
    requires LogSound(log) && i < n <= |log|
    requires HandOutOf(log[i], s)
    requires forall k | i < k < n :: !VoidsLeases(log[k], log[i].connection)
    ensures LeaseEnd(log[..n], log[i].connection, s) >= log[i].at + Backoff(log[i].attempt)
  {
    var c := log[i].connection;
    assert log[..n][..n - 1] == log[..n - 1];
    assert log[..n][n - 1] == log[n - 1];
    if i < n - 1 {
      LeaseHolds(log, i, n - 1, s);
      if HandOutOf(log[n - 1], s) {
        assert EntrySound(log, n - 1);
        assert HandOutOf(log[i], s);
      }
    }
  }

  /** Hand-outs of one delivery with no retry, update or restart between them are a whole backoff apart. */
  lemma HandOutsSpaced(actions: seq<Action>, i: nat, j: nat, s: Sequence)
    requires var log := Run(actions).log;
             && i < j < |log| && HandOutOf(log[i], s) && HandOutOf(log[j], s)
             && forall k | i < k < j :: !VoidsLeases(log[k], log[i].connection)
    ensures var log := Run(actions).log;
            log[j].connection == log[i].connection && log[j].at >= log[i].at + Backoff(log[i].attempt)
  {
    var log := Run(actions).log;
    AlwaysSound(actions);
    LeaseHolds(log, i, j, s);
    assert EntrySound(log, j);
  }

  /** The backoff doubles from two seconds up to a minute. */
  lemma BackoffSchedule(attempt: nat)
    requires attempt >= 1
    ensures Backoff(attempt) == if attempt < 6 then [2, 4, 8, 16, 32][attempt - 1] else 60
  {
    assert Pow2(1) == 2 && Pow2(2) == 4 && Pow2(3) == 8 && Pow2(4) == 16 && Pow2(5) == 32 && Pow2(6) == 64;
    if attempt >= 6 {
      Pow2Grows(6, attempt);
    }
  }

  lemma {:induction false} Pow2Grows(a: nat, b: nat)
    requires a <= b
    ensures Pow2(a) <= Pow2(b)
  {
    if a < b {
      Pow2Grows(a, b - 1);
    }
  }

  function CountHandOuts(log: seq<Happening>, s: Sequence, from: nat, past: nat): nat
    requires from <= past <= |log|
  {
    if from == past then 0
    else CountHandOuts(log, s, from, past - 1) + if HandOutOf(log[past - 1], s) then 1 else 0
  }

  lemma {:induction false} CountedSinceRetry(log: seq<Happening>, c: ConnectionId, s: Sequence, from: nat, past: nat)
    requires from <= past <= |log|
    requires forall k | from <= k < past :: log[k] != Retried(c)
    ensures CountHandOuts(log, s, from, past) <= HandOuts(log[..past], c, s)
  {
    if from < past {
      CountedSinceRetry(log, c, s, from, past - 1);
      assert log[..past][..past - 1] == log[..past - 1];
    }
  }

  lemma {:induction false} CountBounded(log: seq<Happening>, c: ConnectionId, s: Sequence, from: nat, past: nat)
    requires LogSound(log) && from <= past <= |log|
    requires forall k | from <= k < past :: log[k] != Retried(c)
    requires forall k | from <= k < past && HandOutOf(log[k], s) :: log[k].connection == c
    ensures CountHandOuts(log, s, from, past) <= MAX_ATTEMPTS
  {
    if from < past {
      if HandOutOf(log[past - 1], s) {
        assert EntrySound(log, past - 1);
        CountedSinceRetry(log, c, s, from, past - 1);
      } else {
        CountBounded(log, c, s, from, past - 1);
      }
    }
  }

  /** Every hand-out of one delivery goes to the same connection. */
  lemma OneReceiver(log: seq<Happening>, s: Sequence, i: nat, j: nat)
    requires LogSound(log) && i < |log| && j < |log|
    requires HandOutOf(log[i], s) && HandOutOf(log[j], s)
    ensures log[i].connection == log[j].connection
  {
    assert EntrySound(log, i) && EntrySound(log, j);
  }

  /** Between two retries of its connection a delivery is handed out at most eight times. */
  lemma AtMostEightBetweenRetries(actions: seq<Action>, m: nat, s: Sequence, from: nat, past: nat)
    requires var log := Run(actions).log;
             && from <= past <= |log| && m < |log| && HandOutOf(log[m], s)
             && forall k | from <= k < past :: log[k] != Retried(log[m].connection)
    ensures CountHandOuts(Run(actions).log, s, from, past) <= MAX_ATTEMPTS
  {
    var log := Run(actions).log;
    AlwaysSound(actions);
    forall k | from <= k < past && HandOutOf(log[k], s)
      ensures log[k].connection == log[m].connection
    {
      OneReceiver(log, s, k, m);
    }
    CountBounded(log, log[m].connection, s, from, past);
  }

  /** `replay` is true exactly when the delivery was handed out before, across retries, updates and restarts. */
  lemma ReplayMeansSentBefore(actions: seq<Action>, k: nat)
    requires k < |Run(actions).log| && Run(actions).log[k].HandedOut?
    ensures var log := Run(actions).log;
            log[k].replay <==> exists i :: 0 <= i < k && HandOutOf(log[i], log[k].sequence)
  {
    var log := Run(actions).log;
    AlwaysSound(actions);
    assert EntrySound(log, k);
    assert log[k].replay <==> WasHandedOut(log[..k], log[k].sequence);
    if exists i :: 0 <= i < k && HandOutOf(log[i], log[k].sequence) {
      var i :| 0 <= i < k && HandOutOf(log[i], log[k].sequence);
      assert HandOutOf(log[..k][i], log[k].sequence);
    }
  }

  // ---------------------------------------------------------------- answers

  /** A response is accepted only for a delivery handed out before, and once accepted it never changes. */
  lemma AcceptedNeverChanges(actions: seq<Action>, i: nat, k: nat)
    requires var log := Run(actions).log;
             i < k < |log| && log[i].Accepted? && log[k].Accepted? && log[i].sequence == log[k].sequence
    ensures var log := Run(actions).log; log[k].response == log[i].response && log[k].duplicate
  {
    var log := Run(actions).log;
    AlwaysSound(actions);
    assert EntrySound(log, k);
    assert AcceptanceOf(log[i], log[k].sequence) && AcceptanceOf(log[..k][i], log[k].sequence);
  }

  lemma FirstAcceptanceIsNew(actions: seq<Action>, k: nat)
    requires var log := Run(actions).log; k < |log| && log[k].Accepted?
    ensures var log := Run(actions).log;
            && (log[k].duplicate ==> exists i :: 0 <= i < k && AcceptanceOf(log[i], log[k].sequence))
            && (exists i :: 0 <= i < k && HandOutOf(log[i], log[k].sequence))
  {
    var log := Run(actions).log;
    AlwaysSound(actions);
    assert EntrySound(log, k);
    assert WasHandedOut(log[..k], log[k].sequence);
    var i :| 0 <= i < k && HandOutOf(log[..k][i], log[k].sequence);
    assert HandOutOf(log[i], log[k].sequence);
    if log[k].duplicate {
      var a :| 0 <= a < k && AcceptanceOf(log[..k][a], log[k].sequence);
      assert AcceptanceOf(log[a], log[k].sequence);
    }
  }

  lemma AcceptedBefore(log: seq<Happening>, i: nat, k: nat, s: Sequence)
    requires i < k <= |log| && AcceptanceOf(log[i], s)
    ensures WasAccepted(log[..k], s)
  {
    assert AcceptanceOf(log[..k][i], s);
  }

  /** An answered delivery is never handed out again. */
  lemma AnsweredNeverHandedOut(actions: seq<Action>, i: nat, k: nat)
    requires var log := Run(actions).log; i < |log| && k < |log| && log[i].Accepted? && log[k].HandedOut?
    requires Run(actions).log[i].sequence == Run(actions).log[k].sequence
    ensures k < i
  {
    hide Run, Inv, SourceSound, ForwardingMirrors, RowsMirror, HandOuts, LeaseEnd, WasAccepted;
    var log := Run(actions).log;
    AlwaysSound(actions);
    assert EntrySound(log, k);
    if i < k {
      AcceptedBefore(log, i, k, log[k].sequence);
    }
  }

  // ---------------------------------------------------------------- inbound events

  lemma ReceivedUnique(j: Journal, s: Sequence)
    requires ReceivedSound(j) && s in j.received
    ensures FindReceived(j.received, j.received[s].connection, j.received[s].event, j.nextReceived) == Some(s)
  {
    var found := FindReceived(j.received, j.received[s].connection, j.received[s].event, j.nextReceived);
    assert found.Some? && found.value in j.received;
  }
}
