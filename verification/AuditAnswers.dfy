/** What the audit log refuses and what its pages hold, stated about rows and history alone. */
module AuditAnswers {
  import opened Prelude
  import opened AuditLog

  /** The single state row as `_state` demands it. */
  lemma StateExact(s: StateRow)
    ensures StateAdmitted(s) <==>
              && s.anchorId <= s.lastId < 0x8000_0000_0000_0000 && s.lastId - s.anchorId <= 100_000
              && (s.lastId == 0 || s.lastId != s.anchorId)
              && (s.anchorId == 0 ==> s.anchorDigest == 0) && (s.lastId == 0 ==> s.lastDigest == 0)
  {
  }

  /**
   On any database, tampered with or not, an append is refused exactly if the state row is not as it
   must be, the tail is missing, differs from the recorded digest or does not rehash to it, the ids are
   used up, the next id is taken, or the row that becomes the retention anchor is missing.
   */
  lemma AppendRefused(hash: Hash, db: Database, body: Body)
    ensures var s := db.state;
            Append(hash, db, body).None? <==>
              || !StateAdmitted(s)
              || (s.lastId > 0 && (s.lastId !in db.rows
                                   || db.rows[s.lastId].digest != s.lastDigest
                                   || hash(db.rows[s.lastId].previous, db.rows[s.lastId].event) != s.lastDigest))
              || s.lastId + 1 == 0x8000_0000_0000_0000
              || s.lastId + 1 in db.rows
              || (s.lastId + 1 > s.anchorId + 100_000 && s.lastId + 1 - 100_000 !in db.rows)
  {
  }

  /** What an append writes: one row, and, past the bound, a higher anchor without the rows up to it. */
  lemma AppendWrites(hash: Hash, db: Database, body: Body)
    requires Append(hash, db, body).Some?
    ensures var s, t := db.state, Append(hash, db, body).value;
            var id := s.lastId + 1;
            var row := Row(Event(id, body), s.lastDigest, hash(s.lastDigest, Event(id, body)));
            var anchor := if id > s.anchorId + 100_000 then id - 100_000 else s.anchorId;
            && t.state.lastId == id && t.state.lastDigest == row.digest && t.state.anchorId == anchor
            && t.state.anchorDigest == (if anchor == s.anchorId then s.anchorDigest else db.rows[anchor].digest)
            && (forall k :: k in t.rows <==> (k == id || k in db.rows) && (anchor != s.anchorId ==> k > anchor))
            && (forall k | k in t.rows :: t.rows[k] == if k == id then row else db.rows[k])
  {
  }

  /**
   On any database a page is refused exactly if the state row is not as it must be, the number of rows is
   not what it says, or some row selected for the page does not rehash to its digest or does not carry
   on from the row before it, the anchor standing in for the row before the first.
   */
  lemma PageRefused(hash: Hash, db: Database, filter: Filter, before: Option<nat>, limit: nat)
    requires limit >= 1
    ensures ReadPage(hash, db, filter, before, limit).None? <==>
              || !StateAdmitted(db.state)
              || |db.rows| != db.state.lastId - db.state.anchorId
              || exists id :: id in Select(db.rows, filter, if before.Some? then before.value else 0x8000_0000_0000_0000,
                                           limit + 1)
                   && id in db.rows
                   && (db.rows[id].digest != hash(db.rows[id].previous, db.rows[id].event)
                       || (if id == db.state.anchorId + 1 then db.rows[id].previous != db.state.anchorDigest
                           else id == 0 || id - 1 !in db.rows || db.rows[id].previous != db.rows[id - 1].digest))
  {
    hide StateAdmitted, IsSelection, Selected, PageOf;
    var ids := Select(db.rows, filter, if before.Some? then before.value else 0x8000_0000_0000_0000, limit + 1);
    SelectedStored(db.rows, filter, if before.Some? then before.value else 0x8000_0000_0000_0000, limit + 1);
    assert AllIntact(hash, db, ids) <==> forall id | id in ids :: RowIntact(hash, db, id);
    assert forall id | id in ids ::
        RowIntact(hash, db, id) <==>
          !(db.rows[id].digest != hash(db.rows[id].previous, db.rows[id].event)
            || (if id == db.state.anchorId + 1 then db.rows[id].previous != db.state.anchorDigest
                else id == 0 || id - 1 !in db.rows || db.rows[id].previous != db.rows[id - 1].digest));
  }

  /** Whether a stored event answers a query, condition by condition. */
  lemma MatchesExact(f: Filter, b: Body)
    ensures Matches(f, b) <==>
              && (f.action.None? || f.action.value == b.action)
              && (f.outcome.None? || f.outcome.value == b.outcome)
              && (f.actor.None? || f.actor == b.actor)
              && (f.target.None? || f.target == b.target)
              && (f.start.None? || b.occurredAt >= f.start.value)
              && (f.end.None? || b.occurredAt < f.end.value)
  {
  }

  /**
   A page of the store's own database: the genuine rows of exactly the retained events that match,
   between its cursor and the one it hands on, newest first; never more than `limit`, and no fewer if
   it says there are more. Its totals are those of the retained history.
   */
  lemma PageExact(hash: Hash, history: seq<Body>, filter: Filter, before: Option<nat>, limit: nat)
    requires |history| < 0x8000_0000_0000_0000 && limit >= 1
    ensures ReadPage(hash, Image(hash, history), filter, before, limit).Some?
    ensures var page := ReadPage(hash, Image(hash, history), filter, before, limit).value;
            var n := |history|;
            var dropped := if n <= 100_000 then 0 else n - 100_000;
            && |page.rows| <= limit && (page.hasMore ==> |page.rows| == limit)
            && (page.hasMore <==> page.nextBefore.Some?)
            && (page.hasMore ==> page.nextBefore == Some(page.rows[limit - 1].event.id))
            && (forall i, k | 0 <= i < k < |page.rows| :: page.rows[i].event.id > page.rows[k].event.id)
            && (forall i | 0 <= i < |page.rows| ::
                  && 1 <= page.rows[i].event.id <= n
                  && page.rows[i] == Row(Event(page.rows[i].event.id, history[page.rows[i].event.id - 1]),
                                         Fold(hash, history, page.rows[i].event.id - 1),
                                         Fold(hash, history, page.rows[i].event.id)))
            && (forall id: nat ::
                  Returned(page, id) <==>
                    && dropped < id <= n && Matches(filter, history[id - 1])
                    && (before.Some? ==> id < before.value)
                    && (page.hasMore ==> id >= page.nextBefore.value))
            && page.lastId == n && page.total == n - dropped
            && page.firstRetained == (if n == 0 then None else Some(dropped + 1))
  {
    hide Fold, Matches, AllIntact, RowIntact, StateAdmitted, ReadPage, Image, Selected, Returned, Select;
    PageMeaning(hash, history, filter, before, limit);
    PageIsCut(hash, Image(hash, history), filter, before, limit);
    ImageState(hash, history);
    var db, page := Image(hash, history), ReadPage(hash, Image(hash, history), filter, before, limit).value;
    forall id: nat
      ensures Returned(page, id) <==>
                && (if |history| <= 100_000 then 0 else |history| - 100_000) < id <= |history|
                && Matches(filter, history[id - 1])
                && (before.Some? ==> id < before.value)
                && (page.hasMore ==> id >= page.nextBefore.value)
    {
      ImageSelected(hash, history, filter, id);
    }
    forall i | 0 <= i < |page.rows|
      ensures 1 <= page.rows[i].event.id <= |history|
      ensures page.rows[i] == Row(Event(page.rows[i].event.id, history[page.rows[i].event.id - 1]),
                                  Fold(hash, history, page.rows[i].event.id - 1),
                                  Fold(hash, history, page.rows[i].event.id))
    {
      ImageRow(hash, history, page.rows[i].event.id);
    }
  }

  lemma ImageState(hash: Hash, history: seq<Body>)
    ensures var s := Image(hash, history).state;
            s.lastId == |history| && s.anchorId == if |history| <= 100_000 then 0 else |history| - 100_000
  {
  }

  lemma ImageRow(hash: Hash, history: seq<Body>, id: nat)
    requires id in Image(hash, history).rows
    ensures 1 <= id <= |history|
    ensures Image(hash, history).rows[id]
         == Row(Event(id, history[id - 1]), Fold(hash, history, id - 1), Fold(hash, history, id))
  {
    hide Fold;
  }

  lemma ImageSelected(hash: Hash, history: seq<Body>, filter: Filter, id: nat)
    ensures Selected(Image(hash, history).rows, filter, id) <==>
              && (if |history| <= 100_000 then 0 else |history| - 100_000) < id <= |history|
              && Matches(filter, history[id - 1])
  {
    hide Fold, Matches;
  }

  /** Any page is a cut of what was selected, with the totals of its database. */
  lemma PageIsCut(hash: Hash, db: Database, filter: Filter, before: Option<nat>, limit: nat)
    requires limit >= 1 && ReadPage(hash, db, filter, before, limit).Some?
    ensures var page := ReadPage(hash, db, filter, before, limit).value;
            && |page.rows| <= limit && (page.hasMore ==> |page.rows| == limit)
            && page.lastId == db.state.lastId
            && page.total == (if db.state.lastId >= db.state.anchorId then db.state.lastId - db.state.anchorId else 0)
            && page.firstRetained == (if db.state.lastId > 0 then Some(db.state.anchorId + 1) else None)
  {
    hide AllIntact, Selected, StateAdmitted, IsSelection;
  }
}
