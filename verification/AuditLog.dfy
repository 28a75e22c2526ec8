/**
 The operational audit: a hash-chained table with a sliding retention anchor.

 The table maps an append id to its row, as the integer primary key does. The
 digest is an arbitrary function of the previous digest and the event, so
 tamper evidence is stated by extracting a collision, never by assuming one away.
 */
module AuditLog {
  import opened Prelude
  import opened RetainedTable

  const MAX_AUDIT_ROWS: nat := 100_000
  const ID_LIMIT: nat := 0x8000_0000_0000_0000
  const MAX_PAGE_ROWS: nat := 100
  const MAX_EXPORT_ROWS: nat := 10_000

  /** A well-formed digest: 256 bits, written by the source as 64 hexadecimal digits. */
  type Digest = nat

  const ZERO: Digest := 0

  /** The stored columns; `rest` stands for those no query filters on. */
  datatype Body = Body(
    action: string, outcome: string, actor: Option<string>, target: Option<string>, occurredAt: int, rest: string)

  datatype Event = Event(id: nat, body: Body)

  type Hash = (Digest, Event) -> Digest

  datatype Row = Row(event: Event, previous: Digest, digest: Digest)

  datatype StateRow = StateRow(anchorId: nat, anchorDigest: Digest, lastId: nat, lastDigest: Digest)

  datatype Database = Database(state: StateRow, rows: map<nat, Row>)

  ghost predicate Collision(hash: Hash, p: Digest, e: Event, q: Digest, f: Event) {
    (p, e) != (q, f) && hash(p, e) == hash(q, f)
  }

  ghost predicate CollisionFree(hash: Hash) {
    forall p, e, q, f :: !Collision(hash, p, e, q, f)
  }

  /** The checks `_state` makes on the single state row. */
  predicate StateAdmitted(s: StateRow) {
    && s.anchorId <= s.lastId < ID_LIMIT
    && s.lastId - s.anchorId <= MAX_AUDIT_ROWS
    && !(s.lastId > 0 && s.lastId == s.anchorId)
    && (s.anchorId == 0 ==> s.anchorDigest == ZERO)
    && (s.lastId == 0 ==> s.lastDigest == ZERO)
  }

  // ---------------------------------------------------------------- the ideal log

  /** The unbounded ideal: the digest after the first `k` events of `history`. */
  function Fold(hash: Hash, history: seq<Body>, k: nat): Digest
    requires k <= |history|
  {
    if k == 0 then ZERO else hash(Fold(hash, history, k - 1), Event(k, history[k - 1]))
  }

  lemma {:induction false} FoldOfPrefix(hash: Hash, history: seq<Body>, more: seq<Body>, k: nat)
    requires k <= |history|
    ensures Fold(hash, history + more, k) == Fold(hash, history, k)
  {
    if k > 0 {
      FoldOfPrefix(hash, history, more, k - 1);
    }
  }

  /** The row the ideal log holds for append id `id`. */
  function IdealRow(hash: Hash, history: seq<Body>, id: nat): Row
    requires 1 <= id <= |history|
  {
    Row(Event(id, history[id - 1]), Fold(hash, history, id - 1), Fold(hash, history, id))
  }

  /** The history seen from retention anchor `anchor`: its later rows, and both digests. */
  function View(hash: Hash, history: seq<Body>, anchor: nat): Database
    requires anchor <= |history|
  {
    Database(
      StateRow(anchor, Fold(hash, history, anchor), |history|, Fold(hash, history, |history|)),
      map id: nat | anchor < id <= |history| :: IdealRow(hash, history, id))
  }

  /** The newest id retention drops. */
  function Anchor(history: seq<Body>): (a: nat)
    ensures a <= |history|
  {
    if |history| <= MAX_AUDIT_ROWS then 0 else |history| - MAX_AUDIT_ROWS
  }

  /** What the bounded database holds after `history` was appended. */
  function Image(hash: Hash, history: seq<Body>): Database {
    View(hash, history, Anchor(history))
  }

  // ---------------------------------------------------------------- verification

  /** The meaning of an accepted `_verify_chain`: consecutive ids, linked and rehashed from anchor to tail. */
  ghost predicate Chained(hash: Hash, db: Database) {
    && StateAdmitted(db.state)
    && (forall id :: id in db.rows <==> db.state.anchorId < id <= db.state.lastId)
    && (forall id | id in db.rows :: LinkedAt(hash, db, id))
    && db.state.lastDigest == DigestAt(db, db.state.lastId)
  }

  /** The digest recorded for `id`: the anchor's own for the anchor, the row's otherwise. */
  function DigestAt(db: Database, id: nat): Digest {
    if id in db.rows then db.rows[id].digest else db.state.anchorDigest
  }

  predicate LinkedAt(hash: Hash, db: Database, id: nat)
    requires id in db.rows
  {
    var row := db.rows[id];
    && id > 0
    && row.event.id == id
    && row.previous == DigestAt(db, id - 1)
    && row.digest == hash(row.previous, row.event)
  }

  lemma ViewChained(hash: Hash, history: seq<Body>, anchor: nat)
    requires Anchor(history) <= anchor <= |history| < ID_LIMIT
    requires history != [] ==> anchor < |history|
    ensures Chained(hash, View(hash, history, anchor))
  {
    var db := View(hash, history, anchor);
    forall id | id in db.rows
      ensures LinkedAt(hash, db, id)
    {
      assert db.rows[id] == IdealRow(hash, history, id);
    }
  }

  /** The bounded store always passes its own verification. */
  lemma ImageChained(hash: Hash, history: seq<Body>)
    requires |history| < ID_LIMIT
    ensures Chained(hash, Image(hash, history))
  {
    ViewChained(hash, history, Anchor(history));
  }

  // ---------------------------------------------------------------- tamper evidence

  lemma ChainedAt(hash: Hash, db: Database, id: nat)
    requires Chained(hash, db) && db.state.anchorId < id <= db.state.lastId
    ensures id in db.rows && LinkedAt(hash, db, id)
  {
  }

  /** Walking two accepted chains back from one tail: rows agree down to `low`, or a collision is in hand. */
  lemma {:induction false} ChainsAgree(hash: Hash, a: Database, b: Database, high: nat, low: nat)
    requires Chained(hash, a) && Chained(hash, b)
    requires a.state.anchorId <= low && b.state.anchorId <= low
    requires low <= high <= a.state.lastId && high <= b.state.lastId
    requires DigestAt(a, high) == DigestAt(b, high)
    ensures || (exists p, e, q, f :: Collision(hash, p, e, q, f))
            || (DigestAt(a, low) == DigestAt(b, low) && forall id :: low < id <= high ==> a.rows[id] == b.rows[id])
    decreases high - low
  {
    hide Chained;
    if low < high {
      ChainedAt(hash, a, high);
      ChainedAt(hash, b, high);
      var r, s := a.rows[high], b.rows[high];
      if (r.previous, r.event) != (s.previous, s.event) {
        assert Collision(hash, r.previous, r.event, s.previous, s.event);
      } else {
        ChainsAgree(hash, a, b, high - 1, low);
      }
    }
  }

  /** Two databases with one state row that both verify hold the same rows, or exhibit a digest collision. */
  lemma TamperEvidence(hash: Hash, a: Database, b: Database)
    requires Chained(hash, a) && Chained(hash, b)
    requires a.state == b.state
    ensures a == b || exists p, e, q, f :: Collision(hash, p, e, q, f)
  {
    ChainsAgree(hash, a, b, a.state.lastId, a.state.anchorId);
    if !exists p, e, q, f :: Collision(hash, p, e, q, f) {
      assert a.rows.Keys == b.rows.Keys;
    }
  }

  lemma NoCollision(hash: Hash)
    requires CollisionFree(hash)
    ensures !exists p, e, q, f :: Collision(hash, p, e, q, f)
  {
  }

  lemma ChainedRows(hash: Hash, db: Database)
    requires Chained(hash, db)
    ensures StateAdmitted(db.state) && DigestAt(db, db.state.anchorId) == db.state.anchorDigest
    ensures DigestAt(db, db.state.lastId) == db.state.lastDigest
    ensures forall id :: id in db.rows <==> db.state.anchorId < id <= db.state.lastId
  {
  }

  /** An accepted database with a genuine tail is the history seen from its own anchor. */
  lemma AcceptedIsView(hash: Hash, history: seq<Body>, db: Database)
    requires CollisionFree(hash) && Chained(hash, db)
    requires db.state.lastId == |history| && db.state.lastDigest == Fold(hash, history, |history|)
    requires Anchor(history) <= db.state.anchorId <= |history| < ID_LIMIT
    requires history != [] ==> db.state.anchorId < |history|
    ensures db == View(hash, history, db.state.anchorId)
  {
    hide Chained, CollisionFree, Collision, StateAdmitted;
    var anchor := db.state.anchorId;
    var view := View(hash, history, anchor);
    ViewChained(hash, history, anchor);
    ChainedRows(hash, db);
    ChainedRows(hash, view);
    ChainsAgree(hash, db, view, |history|, anchor);
    NoCollision(hash);
    assert db.rows.Keys == view.rows.Keys;
  }

  /** Exactly which databases pass for a genuine tail: the views of the true history, and nothing else. */
  lemma AcceptedExactlyViews(hash: Hash, history: seq<Body>, db: Database)
    requires CollisionFree(hash)
    requires |history| < ID_LIMIT
    requires db.state.lastId == |history| && db.state.lastDigest == Fold(hash, history, |history|)
    ensures Chained(hash, db) <==>
            && Anchor(history) <= db.state.anchorId <= |history|
            && (history != [] ==> db.state.anchorId < |history|)
            && db == View(hash, history, db.state.anchorId)
  {
    hide Chained, CollisionFree;
    if Chained(hash, db) {
      ChainedRows(hash, db);
      AcceptedIsView(hash, history, db);
    } else if Anchor(history) <= db.state.anchorId <= |history| && (history != [] ==> db.state.anchorId < |history|) {
      ViewChained(hash, history, db.state.anchorId);
    }
  }

  /** Editing, deleting, inserting or reordering retained rows under an untouched state row is always refused. */
  lemma RowEditsRefused(hash: Hash, history: seq<Body>, db: Database)
    requires CollisionFree(hash)
    requires |history| < ID_LIMIT
    requires db.state == Image(hash, history).state
    requires db.rows != Image(hash, history).rows
    ensures !Chained(hash, db)
  {
    AcceptedExactlyViews(hash, history, db);
  }

  // ---------------------------------------------------------------- appending

  /** One committed append on any database, or nothing when the transaction raises. */
  function Append(hash: Hash, db: Database, body: Body): Option<Database> {
    var s := db.state;
    var id := s.lastId + 1;
    if !StateAdmitted(s) || (s.lastId > 0 && !TailIntact(hash, db)) || id >= ID_LIMIT || id in db.rows then None
    else
      var event := Event(id, body);
      var row := Row(event, s.lastDigest, hash(s.lastDigest, event));
      var rows := db.rows[id := row];
      var cutoff := id - MAX_AUDIT_ROWS;
      if cutoff <= s.anchorId then Some(Database(s.(lastId := id, lastDigest := row.digest), rows))
      else if cutoff !in rows then None
      else
        Some(Database(StateRow(cutoff, rows[cutoff].digest, id, row.digest), After(rows, cutoff)))
  }

  /** The rows the retention delete leaves: those with an id past `cutoff`. */
  function After(rows: map<nat, Row>, cutoff: nat): map<nat, Row> {
    map id | id in rows && id > cutoff :: rows[id]
  }

  /** The tail row is present, carries the recorded digest and still rehashes to it. */
  predicate TailIntact(hash: Hash, db: Database) {
    && db.state.lastId in db.rows
    && var tail := db.rows[db.state.lastId];
    && tail.digest == db.state.lastDigest
    && tail.digest == hash(tail.previous, tail.event)
  }

  lemma ImageTail(hash: Hash, history: seq<Body>)
    requires |history| < ID_LIMIT
    ensures var db := Image(hash, history);
            StateAdmitted(db.state) && (history != [] ==> TailIntact(hash, db)) && |history| + 1 !in db.rows
  {
  }

  /** Inserting the next row extends every view of the history in place. */
  lemma InsertExtendsView(hash: Hash, history: seq<Body>, body: Body, anchor: nat)
    requires anchor <= |history|
    ensures var n, longer := |history|, history + [body];
            && View(hash, longer, anchor).rows == View(hash, history, anchor).rows[n + 1 := IdealRow(hash, longer, n + 1)]
            && Fold(hash, longer, anchor) == Fold(hash, history, anchor)
            && Fold(hash, longer, n) == Fold(hash, history, n)
  {
    var longer := history + [body];
    forall k: nat | k <= |history|
      ensures Fold(hash, longer, k) == Fold(hash, history, k)
    {
      FoldOfPrefix(hash, history, [body], k);
    }
  }

  /** Raising the anchor of a view is the retention delete. */
  lemma AnchorRaised(hash: Hash, history: seq<Body>, anchor: nat, cutoff: nat)
    requires anchor <= cutoff <= |history|
    ensures After(View(hash, history, anchor).rows, cutoff) == View(hash, history, cutoff).rows
  {
  }

  /** An append to a database whose tail is intact, before and after retention starts to drop rows. */
  lemma AppendCases(hash: Hash, db: Database, body: Body, row: Row, rows: map<nat, Row>)
    requires StateAdmitted(db.state) && (db.state.lastId > 0 ==> TailIntact(hash, db))
    requires db.state.lastId + 1 < ID_LIMIT && db.state.lastId + 1 !in db.rows
    requires row == Row(Event(db.state.lastId + 1, body), db.state.lastDigest,
                        hash(db.state.lastDigest, Event(db.state.lastId + 1, body)))
    requires rows == db.rows[db.state.lastId + 1 := row]
    ensures var cutoff := db.state.lastId + 1 - MAX_AUDIT_ROWS;
            && (cutoff <= db.state.anchorId ==>
                  Append(hash, db, body)
                  == Some(Database(db.state.(lastId := db.state.lastId + 1, lastDigest := row.digest), rows)))
            && (cutoff > db.state.anchorId && cutoff in rows ==>
                  Append(hash, db, body)
                  == Some(Database(StateRow(cutoff, rows[cutoff].digest, db.state.lastId + 1, row.digest),
                                   After(rows, cutoff))))
  {
  }

  /** The row of the next event, on top of what the bounded database holds. */
  lemma NextRow(hash: Hash, history: seq<Body>, body: Body)
    requires |history| + 1 < ID_LIMIT
    ensures var db, longer, id := Image(hash, history), history + [body], |history| + 1;
            var row := IdealRow(hash, longer, id);
            && row == Row(Event(id, body), db.state.lastDigest, hash(db.state.lastDigest, Event(id, body)))
            && View(hash, longer, Anchor(history)).rows == db.rows[id := row]
            && View(hash, longer, Anchor(history)).state == db.state.(lastId := id, lastDigest := row.digest)
  {
    InsertExtendsView(hash, history, body, Anchor(history));
    assert (history + [body])[|history|] == body;
  }

  /** Before retention drops anything, the anchor stays at zero. */
  lemma AppendBelow(hash: Hash, history: seq<Body>, body: Body)
    requires |history| + 1 < ID_LIMIT && |history| < MAX_AUDIT_ROWS
    ensures Append(hash, Image(hash, history), body) == Some(Image(hash, history + [body]))
  {
    hide Append, StateAdmitted, TailIntact, After;
    var longer := history + [body];
    ImageTail(hash, history);
    NextRow(hash, history, body);
    AppendCases(hash, Image(hash, history), body, IdealRow(hash, longer, |longer|), View(hash, longer, 0).rows);
  }

  lemma ViewRow(hash: Hash, history: seq<Body>, anchor: nat, id: nat)
    requires anchor < id <= |history|
    ensures id in View(hash, history, anchor).rows && View(hash, history, anchor).rows[id] == IdealRow(hash, history, id)
  {
  }

  lemma ImageOver(hash: Hash, history: seq<Body>)
    requires |history| > MAX_AUDIT_ROWS
    ensures var anchor := |history| - MAX_AUDIT_ROWS;
            Image(hash, history)
            == Database(StateRow(anchor, IdealRow(hash, history, anchor).digest, |history|,
                                 IdealRow(hash, history, |history|).digest),
                        View(hash, history, anchor).rows)
  {
  }

  /** From then on every append raises it by one. */
  lemma AppendOver(hash: Hash, history: seq<Body>, body: Body)
    requires |history| + 1 < ID_LIMIT && |history| >= MAX_AUDIT_ROWS
    ensures Append(hash, Image(hash, history), body) == Some(Image(hash, history + [body]))
  {
    hide Append, StateAdmitted, TailIntact, After, IdealRow, Image, View, Fold;
    var longer, anchor := history + [body], Anchor(history);
    ImageTail(hash, history);
    ImageIds(hash, history);
    NextRow(hash, history, body);
    AppendCases(hash, Image(hash, history), body, IdealRow(hash, longer, |longer|), View(hash, longer, anchor).rows);
    ViewRow(hash, longer, anchor, anchor + 1);
    AnchorRaised(hash, longer, anchor, anchor + 1);
    ImageOver(hash, longer);
  }

  lemma ImageIds(hash: Hash, history: seq<Body>)
    ensures Image(hash, history).state.lastId == |history| && Image(hash, history).state.anchorId == Anchor(history)
  {
  }

  /** Appending to the bounded database is appending to the unbounded history. */
  lemma AppendRefines(hash: Hash, history: seq<Body>, body: Body)
    requires |history| + 1 < ID_LIMIT
    ensures Append(hash, Image(hash, history), body) == Some(Image(hash, history + [body]))
  {
    hide Append, Image;
    if |history| < MAX_AUDIT_ROWS {
      AppendBelow(hash, history, body);
    } else {
      AppendOver(hash, history, body);
    }
  }

  // ---------------------------------------------------------------- reading pages

  /** An `events` query's optional conditions. */
  datatype Filter = Filter(
    action: Option<string>, outcome: Option<string>, actor: Option<string>, target: Option<string>,
    start: Option<int>, end: Option<int>)

  predicate Matches(f: Filter, b: Body) {
    && (f.action.Some? ==> b.action == f.action.value)
    && (f.outcome.Some? ==> b.outcome == f.outcome.value)
    && (f.actor.Some? ==> b.actor == f.actor)
    && (f.target.Some? ==> b.target == f.target)
    && (f.start.Some? ==> f.start.value <= b.occurredAt)
    && (f.end.Some? ==> b.occurredAt < f.end.value)
  }

  /** The action and outcome names the log knows. */
  datatype Vocabulary = Vocabulary(actions: set<string>, outcomes: set<string>)

  /** The filters a query may have: known names, and a time range that is whole and not empty, or none. */
  predicate FilterAdmitted(names: Vocabulary, f: Filter) {
    && (f.action.Some? ==> f.action.value in names.actions)
    && (f.outcome.Some? ==> f.outcome.value in names.outcomes)
    && (f.start.Some? || f.end.Some? ==> f.start.Some? && f.end.Some? && f.start.value < f.end.value)
  }

  /** What `events` accepts as a query at all. */
  predicate QueryAdmitted(names: Vocabulary, filter: Filter, before: Option<nat>, limit: int, forExport: bool) {
    && 1 <= limit <= (if forExport then MAX_EXPORT_ROWS else MAX_PAGE_ROWS)
    && (before.Some? ==> 1 <= before.value < ID_LIMIT)
    && FilterAdmitted(names, filter)
  }

  predicate Selected(rows: map<nat, Row>, filter: Filter, id: nat) {
    id in rows && Matches(filter, rows[id].event.body)
  }

  /** `ids` are the `limit` greatest selected ids below `below`, in descending order. */
  ghost predicate IsSelection(rows: map<nat, Row>, filter: Filter, below: nat, limit: nat, ids: seq<nat>) {
    && |ids| <= limit
    && (forall i :: 0 <= i < |ids| ==> ids[i] < below && Selected(rows, filter, ids[i]))
    && (forall i, j :: 0 <= i < j < |ids| ==> ids[i] > ids[j])
    && (forall id: nat :: id < below && Selected(rows, filter, id) && id !in ids ==>
                            |ids| == limit && (limit > 0 ==> id < ids[limit - 1]))
  }

  /** Selected ids below `below`, newest first, cut off after `limit`. */
  function Select(rows: map<nat, Row>, filter: Filter, below: nat, limit: nat): (ids: seq<nat>)
    ensures IsSelection(rows, filter, below, limit, ids)
  {
    if below == 0 || limit == 0 then []
    else if Selected(rows, filter, below - 1) then [below - 1] + Select(rows, filter, below - 1, limit - 1)
    else Select(rows, filter, below - 1, limit)
  }

  lemma SelectedStored(rows: map<nat, Row>, filter: Filter, below: nat, limit: nat)
    ensures var ids := Select(rows, filter, below, limit); |ids| <= limit && forall id | id in ids :: id in rows
  {
  }

  datatype Page = Page(
    rows: seq<Row>, hasMore: bool, nextBefore: Option<nat>, firstRetained: Option<nat>, lastId: nat, total: nat)

  /** The integrity checks `events` repeats on every row it reads. */
  predicate RowIntact(hash: Hash, db: Database, id: nat)
    requires id in db.rows
  {
    var row := db.rows[id];
    && row.digest == hash(row.previous, row.event)
    && if id == db.state.anchorId + 1 then row.previous == db.state.anchorDigest
       else id > 0 && id - 1 in db.rows && row.previous == db.rows[id - 1].digest
  }

  predicate AllIntact(hash: Hash, db: Database, ids: seq<nat>)
    requires forall id | id in ids :: id in db.rows
  {
    forall id | id in ids :: RowIntact(hash, db, id)
  }

  /** One page of any database, or nothing when a check raises. */
  function ReadPage(hash: Hash, db: Database, filter: Filter, before: Option<nat>, limit: nat): (r: Option<Page>)
    requires limit >= 1
  {
    var below := if before.Some? then before.value else ID_LIMIT;
    var ids := Select(db.rows, filter, below, limit + 1);
    if !StateAdmitted(db.state)
       || |db.rows| != db.state.lastId - db.state.anchorId
       || !AllIntact(hash, db, ids) then None
    else Some(PageOf(db, if |ids| > limit then ids[..limit] else ids, |ids| > limit))
  }

  function PageOf(db: Database, ids: seq<nat>, more: bool): Page
    requires forall id :: id in ids ==> id in db.rows
    requires more ==> ids != []
  {
    Page(RowsOf(db, ids), more, if more then Some(ids[|ids| - 1]) else None,
         if db.state.lastId > 0 then Some(db.state.anchorId + 1) else None,
         db.state.lastId, if db.state.lastId >= db.state.anchorId then db.state.lastId - db.state.anchorId else 0)
  }

  function RowsOf(db: Database, ids: seq<nat>): (rows: seq<Row>)
    requires forall id :: id in ids ==> id in db.rows
    ensures |rows| == |ids|
    ensures forall i :: 0 <= i < |ids| ==> rows[i] == db.rows[ids[i]]
  {
    if ids == [] then [] else [db.rows[ids[0]]] + RowsOf(db, ids[1..])
  }

  lemma {:induction false} IntervalCount(rows: map<nat, Row>, low: nat, high: nat)
    requires low <= high
    requires forall id :: id in rows <==> low < id <= high
    ensures |rows| == high - low
  {
    if low == high {
      assert rows.Keys == {};
    } else {
      var fewer := map id | id in rows && id != high :: rows[id];
      IntervalCount(fewer, low, high - 1);
      assert rows.Keys == fewer.Keys + {high};
    }
  }

  /** Every row of the store's own database rehashes and links to the row before it. */
  lemma ImageIntact(hash: Hash, history: seq<Body>, id: nat)
    requires id in Image(hash, history).rows
    ensures RowIntact(hash, Image(hash, history), id)
  {
    var db := Image(hash, history);
    assert db.rows[id] == IdealRow(hash, history, id);
  }

  /** On the store's own database the checks inside `events` never raise. */
  lemma NoFalseAlarm(hash: Hash, history: seq<Body>, filter: Filter, before: Option<nat>, limit: nat)
    requires |history| < ID_LIMIT
    requires limit >= 1
    ensures ReadPage(hash, Image(hash, history), filter, before, limit).Some?
  {
    hide IsSelection, RowIntact, Selected, PageOf;
    var db := Image(hash, history);
    IntervalCount(db.rows, db.state.anchorId, db.state.lastId);
    var ids := Select(db.rows, filter, if before.Some? then before.value else ID_LIMIT, limit + 1);
    SelectedStored(db.rows, filter, if before.Some? then before.value else ID_LIMIT, limit + 1);
    forall id | id in ids
      ensures RowIntact(hash, db, id)
    {
      ImageIntact(hash, history, id);
    }
  }

  ghost predicate Returned(page: Page, id: nat) {
    exists i :: 0 <= i < |page.rows| && page.rows[i].event.id == id
  }

  /** The ids a page answers for: below the cursor it was asked with, down to the cursor it hands on. */
  predicate Covers(before: Option<nat>, page: Page, id: nat) {
    && (before.Some? ==> id < before.value)
    && (page.nextBefore.Some? ==> id >= page.nextBefore.value)
  }

  /** The meaning of one page: genuine rows, newest first, and every selected row it answers for. */
  ghost predicate Serves(db: Database, filter: Filter, before: Option<nat>, page: Page) {
    && (forall i :: 0 <= i < |page.rows| ==>
          page.rows[i].event.id in db.rows && page.rows[i] == db.rows[page.rows[i].event.id])
    && (forall i, j :: 0 <= i < j < |page.rows| ==> page.rows[i].event.id > page.rows[j].event.id)
    && (forall id :: Returned(page, id) <==> Selected(db.rows, filter, id) && Covers(before, page, id))
    && (page.hasMore <==> page.nextBefore.Some?)
    && (page.hasMore ==> page.rows != [] && page.nextBefore == Some(page.rows[|page.rows| - 1].event.id))
  }

  /** Cutting a selection back to `limit` keeps exactly the ids from its last kept one up. */
  lemma TruncatedSelection(rows: map<nat, Row>, filter: Filter, below: nat, limit: nat, all: seq<nat>, id: nat)
    requires limit >= 1
    requires IsSelection(rows, filter, below, limit + 1, all)
    ensures var ids := if |all| > limit then all[..limit] else all;
            id in ids <==> Selected(rows, filter, id) && id < below && (|all| > limit ==> id >= all[limit - 1])
  {
    var ids := if |all| > limit then all[..limit] else all;
    if Selected(rows, filter, id) && id < below && (|all| > limit ==> id >= all[limit - 1]) {
      assert id in all;
      var k :| 0 <= k < |all| && all[k] == id;
      assert ids[k] == id;
    }
  }

  lemma ReturnedIds(db: Database, ids: seq<nat>, more: bool, id: nat)
    requires forall k | k in ids :: k in db.rows && db.rows[k].event.id == k
    requires more ==> ids != []
    ensures Returned(PageOf(db, ids, more), id) <==> id in ids
  {
    var page := PageOf(db, ids, more);
    forall k | 0 <= k < |ids|
      ensures page.rows[k].event.id == ids[k]
    {
      assert ids[k] in ids;
    }
    if id in ids {
      var k :| 0 <= k < |ids| && ids[k] == id;
      assert page.rows[k].event.id == id;
    }
  }

  /** A page made of rows stored under their own ids, in descending order. */
  lemma PageRows(db: Database, ids: seq<nat>, more: bool)
    requires forall k | k in ids :: k in db.rows && db.rows[k].event.id == k
    requires forall i, j | 0 <= i < j < |ids| :: ids[i] > ids[j]
    requires more ==> ids != []
    ensures var page := PageOf(db, ids, more);
            && (forall i :: 0 <= i < |page.rows| ==>
                  page.rows[i].event.id in db.rows && page.rows[i] == db.rows[page.rows[i].event.id])
            && (forall i, j :: 0 <= i < j < |page.rows| ==> page.rows[i].event.id > page.rows[j].event.id)
            && page.nextBefore == (if more then Some(ids[|ids| - 1]) else None)
            && (more ==> page.rows != [] && page.nextBefore == Some(page.rows[|page.rows| - 1].event.id))
  {
    var page := PageOf(db, ids, more);
    forall i | 0 <= i < |ids|
      ensures page.rows[i].event.id == ids[i] && page.rows[i] == db.rows[ids[i]]
    {
      assert ids[i] in ids;
    }
  }

  /** `ids` are the selected ids below the cursor, down to the last of them if there are more. */
  ghost predicate Chosen(db: Database, filter: Filter, before: Option<nat>, ids: seq<nat>, more: bool)
    requires more ==> ids != []
  {
    forall id: nat :: id in ids <==>
      Selected(db.rows, filter, id) && (before.Some? ==> id < before.value) && (more ==> id >= ids[|ids| - 1])
  }

  lemma ChosenServes(db: Database, filter: Filter, before: Option<nat>, ids: seq<nat>, more: bool)
    requires forall k | k in ids :: k in db.rows && db.rows[k].event.id == k
    requires forall i, j | 0 <= i < j < |ids| :: ids[i] > ids[j]
    requires more ==> ids != []
    requires Chosen(db, filter, before, ids, more)
    ensures Serves(db, filter, before, PageOf(db, ids, more))
  {
    var page := PageOf(db, ids, more);
    PageRows(db, ids, more);
    forall id: nat
      ensures Returned(page, id) <==> Selected(db.rows, filter, id) && Covers(before, page, id)
    {
      ReturnedIds(db, ids, more, id);
    }
  }

  lemma SelectionServes(db: Database, filter: Filter, before: Option<nat>, limit: nat, all: seq<nat>)
    requires limit >= 1
    requires forall id | id in db.rows :: id < ID_LIMIT && db.rows[id].event.id == id
    requires IsSelection(db.rows, filter, if before.Some? then before.value else ID_LIMIT, limit + 1, all)
    ensures Serves(db, filter, before, PageOf(db, if |all| > limit then all[..limit] else all, |all| > limit))
  {
    var ids := if |all| > limit then all[..limit] else all;
    forall id: nat
      ensures id in ids <==> Selected(db.rows, filter, id) && (before.Some? ==> id < before.value)
                             && (|all| > limit ==> id >= ids[|ids| - 1])
    {
      TruncatedSelection(db.rows, filter, if before.Some? then before.value else ID_LIMIT, limit, all, id);
    }
    ChosenServes(db, filter, before, ids, |all| > limit);
  }

  lemma PageMeaning(hash: Hash, history: seq<Body>, filter: Filter, before: Option<nat>, limit: nat)
    requires |history| < ID_LIMIT
    requires limit >= 1
    ensures var r := ReadPage(hash, Image(hash, history), filter, before, limit);
            r.Some? && Serves(Image(hash, history), filter, before, r.value)
  {
    NoFalseAlarm(hash, history, filter, before, limit);
    var below := if before.Some? then before.value else ID_LIMIT;
    SelectionServes(
      Image(hash, history), filter, before, limit, Select(Image(hash, history).rows, filter, below, limit + 1));
  }

  // ---------------------------------------------------------------- walking pages while the log grows

  /** A client follows `next_before` from page to page; any appends may come between two pages. */
  ghost predicate Walk(
      hash: Hash, filter: Filter, first: Option<nat>, limit: nat, histories: seq<seq<Body>>, pages: seq<Page>)
    requires limit >= 1
  {
    && |histories| == |pages|
    && (forall k | 0 <= k < |pages| :: PageRead(hash, filter, first, limit, histories, pages, k))
  }

  /** Page `k` was read off the log as it stood then, and was asked for because its predecessor had more. */
  ghost predicate PageRead(
      hash: Hash, filter: Filter, first: Option<nat>, limit: nat, histories: seq<seq<Body>>, pages: seq<Page>, k: nat)
    requires limit >= 1 && k < |pages| == |histories|
  {
    && |histories[k]| < ID_LIMIT
    && ReadPage(hash, Image(hash, histories[k]), filter, Cursor(first, pages, k), limit) == Some(pages[k])
    && (k > 0 ==> pages[k - 1].hasMore && histories[k - 1] <= histories[k])
  }

  /** A page of a walk serves its cursor, and it has a successor only if it had more. */
  lemma PageOfWalk(
      hash: Hash, filter: Filter, first: Option<nat>, limit: nat, histories: seq<seq<Body>>, pages: seq<Page>, k: nat)
    requires limit >= 1 && Walk(hash, filter, first, limit, histories, pages)
    requires k < |pages|
    ensures |histories[k]| < ID_LIMIT
    ensures Serves(Image(hash, histories[k]), filter, Cursor(first, pages, k), pages[k])
    ensures k + 1 < |pages| ==> pages[k].hasMore && histories[k] <= histories[k + 1]
    ensures pages[k].hasMore ==> pages[k].nextBefore.Some? && Returned(pages[k], pages[k].nextBefore.value)
  {
    assert PageRead(hash, filter, first, limit, histories, pages, k);
    PageMeaning(hash, histories[k], filter, Cursor(first, pages, k), limit);
    if k + 1 < |pages| {
      assert PageRead(hash, filter, first, limit, histories, pages, k + 1);
    }
    if pages[k].hasMore {
      assert pages[k].rows[|pages[k].rows| - 1].event.id == pages[k].nextBefore.value;
    }
  }

  /** The cursor page `k` is asked with. */
  function Cursor(first: Option<nat>, pages: seq<Page>, k: nat): Option<nat>
    requires k <= |pages|
  {
    if k == 0 then first else pages[k - 1].nextBefore
  }

  lemma {:induction false} CursorsFall(
      hash: Hash, filter: Filter, first: Option<nat>, limit: nat, histories: seq<seq<Body>>, pages: seq<Page>,
      i: nat, j: nat)
    requires limit >= 1 && Walk(hash, filter, first, limit, histories, pages)
    requires i < j < |pages|
    ensures Cursor(first, pages, j).Some? && Cursor(first, pages, i + 1).Some?
    ensures Cursor(first, pages, j).value <= Cursor(first, pages, i + 1).value
  {
    PageOfWalk(hash, filter, first, limit, histories, pages, j - 1);
    if i + 1 < j {
      CursorsFall(hash, filter, first, limit, histories, pages, i, j - 1);
    }
  }

  /** Later pages hold strictly smaller ids, so no row is ever returned twice. */
  lemma WalkDescends(
      hash: Hash, filter: Filter, first: Option<nat>, limit: nat, histories: seq<seq<Body>>, pages: seq<Page>,
      i: nat, j: nat, x: nat, y: nat)
    requires limit >= 1 && Walk(hash, filter, first, limit, histories, pages)
    requires i < j < |pages| && Returned(pages[i], x) && Returned(pages[j], y)
    ensures x > y
  {
    CursorsFall(hash, filter, first, limit, histories, pages, i, j);
    PageOfWalk(hash, filter, first, limit, histories, pages, i);
    PageOfWalk(hash, filter, first, limit, histories, pages, j);
  }

  /** Some page of a finished walk answers for every id the walk was asked for. */
  lemma {:induction false} SomePageCovers(
      hash: Hash, filter: Filter, first: Option<nat>, limit: nat, histories: seq<seq<Body>>, pages: seq<Page>,
      k: nat, id: nat) returns (j: nat)
    requires limit >= 1 && Walk(hash, filter, first, limit, histories, pages)
    requires k < |pages| && !pages[|pages| - 1].hasMore
    requires Cursor(first, pages, k).Some? ==> id < Cursor(first, pages, k).value
    ensures k <= j < |pages| && Covers(Cursor(first, pages, j), pages[j], id)
    decreases |pages| - k
  {
    PageOfWalk(hash, filter, first, limit, histories, pages, k);
    if pages[k].nextBefore.Some? && id < pages[k].nextBefore.value {
      j := SomePageCovers(hash, filter, first, limit, histories, pages, k + 1, id);
    } else {
      j := k;
    }
  }

  lemma {:induction false} HistoriesGrow(
      hash: Hash, filter: Filter, first: Option<nat>, limit: nat, histories: seq<seq<Body>>, pages: seq<Page>, j: nat)
    requires limit >= 1 && Walk(hash, filter, first, limit, histories, pages)
    requires j < |pages|
    ensures histories[0] <= histories[j]
  {
    if j > 0 {
      HistoriesGrow(hash, filter, first, limit, histories, pages, j - 1);
      PageOfWalk(hash, filter, first, limit, histories, pages, j - 1);
    }
  }

  /** A retained row never changes while the log grows. */
  lemma RowKept(hash: Hash, start: seq<Body>, now: seq<Body>, id: nat)
    requires start <= now
    requires Anchor(start) < id <= |start|
    ensures id in Image(hash, now).rows <==> id > Anchor(now)
    ensures id > Anchor(now) ==> Image(hash, now).rows[id] == Image(hash, start).rows[id]
  {
    assert now == start + now[|start|..];
    FoldOfPrefix(hash, start, now[|start|..], id);
    FoldOfPrefix(hash, start, now[|start|..], id - 1);
  }

  /**
   A finished walk returns, unchanged, every matching row of its first snapshot
   that retention had not dropped when the page answering for it was read.
   */
  lemma WalkComplete(
      hash: Hash, filter: Filter, first: Option<nat>, limit: nat, histories: seq<seq<Body>>, pages: seq<Page>, id: nat)
    returns (j: nat)
    requires limit >= 1 && Walk(hash, filter, first, limit, histories, pages)
    requires pages != [] && !pages[|pages| - 1].hasMore
    requires Selected(Image(hash, histories[0]).rows, filter, id)
    requires first.Some? ==> id < first.value
    ensures j < |pages| && Covers(Cursor(first, pages, j), pages[j], id)
    ensures Returned(pages[j], id) <==> id > Anchor(histories[j])
    ensures Returned(pages[j], id) ==> Image(hash, histories[0]).rows[id] in pages[j].rows
  {
    j := SomePageCovers(hash, filter, first, limit, histories, pages, 0, id);
    HistoriesGrow(hash, filter, first, limit, histories, pages, j);
    PageOfWalk(hash, filter, first, limit, histories, pages, j);
    RowKept(hash, histories[0], histories[j], id);
    if Returned(pages[j], id) {
      var i :| 0 <= i < |pages[j].rows| && pages[j].rows[i].event.id == id;
    }
  }

  // ---------------------------------------------------------------- the store

  datatype AuditError = Unavailable | QueryRefused

  /** What the environment does to one call: file admission before and after it, and the database itself. */
  datatype Faults = Faults(admittedBefore: bool, databaseWorks: bool, admittedAfter: bool)

  // ---------------------------------------------------------------- the scan

  /** The digest a scan carries after `last`: the anchor's own before the first row. */
  function ScannedDigest(db: Database, last: nat): Digest {
    if last != db.state.anchorId && last in db.rows then db.rows[last].digest else db.state.anchorDigest
  }

  /** The rows after the anchor, up to `last`, are all there, and each follows from the one before. */
  ghost predicate ScannedTo(hash: Hash, db: Database, last: nat) {
    && db.state.anchorId <= last
    && forall id | db.state.anchorId < id <= last :: ScannedAt(hash, db, id)
  }

  ghost predicate ScannedAt(hash: Hash, db: Database, id: nat) {
    id in db.rows && id > 0 && FollowsFrom(hash, db, id, ScannedDigest(db, id - 1))
  }

  predicate FollowsFrom(hash: Hash, db: Database, id: nat, previous: Digest)
    requires id in db.rows
  {
    var row := db.rows[id];
    row.event.id == id && row.previous == previous && row.digest == hash(previous, row.event)
  }

  lemma NothingScanned(hash: Hash, db: Database)
    ensures ScannedTo(hash, db, db.state.anchorId)
  {
  }

  lemma ChainIsAdmitted(hash: Hash, db: Database)
    ensures Chained(hash, db) ==> StateAdmitted(db.state)
  {
  }

  lemma OneMoreScanned(hash: Hash, db: Database, last: nat)
    requires ScannedTo(hash, db, last) && last + 1 in db.rows
    requires FollowsFrom(hash, db, last + 1, ScannedDigest(db, last))
    ensures ScannedTo(hash, db, last + 1)
  {
    assert ScannedAt(hash, db, last + 1);
  }

  /** A scan that stops at `id` stopped on a database that is not a chain. */
  lemma StoppedScan(hash: Hash, db: Database, last: nat, id: nat)
    requires StateAdmitted(db.state) && ScannedTo(hash, db, last) && id in db.rows
    requires forall k | k in db.rows :: k < id ==> db.state.anchorId < k <= last
    requires !(db.state.anchorId < id <= last)
    requires last + 1 - db.state.anchorId > MAX_AUDIT_ROWS || id != last + 1
             || !FollowsFrom(hash, db, id, ScannedDigest(db, last))
    ensures !Chained(hash, db)
  {
    hide Chained, StateAdmitted;
    RowsScanned(hash, db, last);
    if Chained(hash, db) {
      ChainedRows(hash, db);
      ChainedAt(hash, db, id);
      WithinLimit(db);
    }
  }

  lemma WithinLimit(db: Database)
    requires StateAdmitted(db.state)
    ensures db.state.lastId - db.state.anchorId <= MAX_AUDIT_ROWS
  {
  }

  lemma RowsScanned(hash: Hash, db: Database, last: nat)
    requires ScannedTo(hash, db, last)
    ensures forall id | db.state.anchorId < id <= last :: id in db.rows
  {
    forall id | db.state.anchorId < id <= last
      ensures id in db.rows
    {
      assert ScannedAt(hash, db, id);
    }
  }

  /** A scan that saw every row accepts exactly the chains. */
  lemma FinishedScan(hash: Hash, db: Database, last: nat)
    requires StateAdmitted(db.state) && ScannedTo(hash, db, last)
    requires forall id | id in db.rows :: db.state.anchorId < id <= last
    ensures Chained(hash, db) <==> last == db.state.lastId && ScannedDigest(db, last) == db.state.lastDigest
  {
    hide Chained, StateAdmitted;
    RowsScanned(hash, db, last);
    if Chained(hash, db) {
      ChainedRows(hash, db);
      ChainIsAdmitted(hash, db);
      TailInRows(db);
      assert last == db.state.anchorId || last in db.rows;
    } else if last == db.state.lastId {
      forall id | id in db.rows
        ensures LinkedAt(hash, db, id)
      {
        assert ScannedAt(hash, db, id);
      }
      AllLinked(hash, db);
    }
  }

  lemma TailInRows(db: Database)
    requires StateAdmitted(db.state)
    requires forall id :: id in db.rows <==> db.state.anchorId < id <= db.state.lastId
    ensures db.state.anchorId <= db.state.lastId
    ensures db.state.lastId == db.state.anchorId || db.state.lastId in db.rows
  {
  }

  lemma AllLinked(hash: Hash, db: Database)
    requires StateAdmitted(db.state)
    requires forall id :: id in db.rows <==> db.state.anchorId < id <= db.state.lastId
    requires forall id | id in db.rows :: LinkedAt(hash, db, id)
    ensures Chained(hash, db) <==> db.state.lastDigest == DigestAt(db, db.state.lastId)
  {
  }

  class AuditStore {
    const hash: Hash
    const names: Vocabulary
    var state: StateRow
    var rows: map<nat, Row>
    var connected: bool
    var failed: bool

    /** A newly created database: no rows, both digests at zero. */
    constructor (hash: Hash, names: Vocabulary)
      ensures this.hash == hash && this.names == names
      ensures Db() == Image(hash, [])
      ensures connected && !failed
    {
      this.hash, this.names := hash, names;
      state := StateRow(0, ZERO, 0, ZERO);
      rows := map[];
      connected, failed := true, false;
      new;
      assert Image(hash, []).rows == map[];
    }

    function Db(): Database
      reads this
    {
      Database(state, rows)
    }

    /** Whether an operation reaches the database at all; `events` alone may run after a failure. */
    predicate Reaches(faults: Faults, permitFailed: bool)
      reads this
    {
      connected && (permitFailed || !failed) && faults.admittedBefore && faults.databaseWorks
    }

    /** The scan made on opening: rows in id order, each linked to and rehashed from the one before. */
    method VerifyChain() returns (ok: bool)
      ensures ok <==> Chained(hash, Db())
    {
      hide ScannedTo, Chained;
      if !StateAdmitted(state) {
        ChainIsAdmitted(hash, Db());
        return false;
      }
      var previous, last, count := state.anchorDigest, state.anchorId, 0;
      var remaining := rows.Keys;
      NothingScanned(hash, Db());
      while remaining != {}
        invariant state.anchorId <= last && count == last - state.anchorId <= MAX_AUDIT_ROWS
        invariant remaining <= rows.Keys
        invariant forall id | id in rows :: id in remaining <==> !(state.anchorId < id <= last)
        invariant ScannedTo(hash, Db(), last) && previous == ScannedDigest(Db(), last)
      {
        ghost var least := Least(remaining);
        var id :| id in remaining && forall other :: other in remaining ==> id <= other;
        remaining := remaining - {id};
        count := count + 1;
        var row := rows[id];
        if count > MAX_AUDIT_ROWS || row.event.id != id || id != last + 1 || row.previous != previous
           || row.digest != hash(previous, row.event) {
          StoppedScan(hash, Db(), last, id);
          return false;
        }
        OneMoreScanned(hash, Db(), last);
        previous, last := row.digest, id;
      }
      ok := last == state.lastId && previous == state.lastDigest;
      FinishedScan(hash, Db(), last);
    }

    /** Preflight before a side effect; it never answers once an operation has failed. */
    method Check(faults: Faults) returns (r: Result<nat, AuditError>)
      modifies this`failed
      ensures old(failed) ==> r.Err?
      ensures r.Ok? <==>
                && connected && !old(failed) && faults == Faults(true, true, true)
                && state.anchorId <= state.lastId < 0x8000_0000_0000_0000 && state.lastId - state.anchorId <= 100_000
                && (state.lastId == 0 || state.lastId != state.anchorId)
                && (state.anchorId == 0 ==> state.anchorDigest == 0) && (state.lastId == 0 ==> state.lastDigest == 0)
      ensures r.Ok? ==> r.value == state.lastId
      ensures failed == (old(failed) || r.Err?)
    {
      if Reaches(faults, false) && StateAdmitted(state) && faults.admittedAfter {
        return Ok(state.lastId);
      }
      failed := true;
      return Err(Unavailable);
    }

    /**
     Append one event: one step of a run, as `Recorded` describes it. A failure leaves the log unchanged
     or, past the commit, appended; never anything else. Nothing is appended once anything has failed.
     */
    method Record(body: Body, faults: Faults) returns (r: Result<nat, AuditError>)
      modifies this`state, this`rows, this`failed
      ensures connected ==> Log(Db(), failed) == Recorded(hash, Log(old(Db()), old(failed)), Attempt(body, faults))
      ensures old(failed) || !connected ==> r.Err? && Db() == old(Db())
      ensures Db() == old(Db()) || Some(Db()) == Append(hash, old(Db()), body)
      ensures r.Ok? ==> state.lastId == old(state.lastId) + 1 == r.value && Some(Db()) == Append(hash, old(Db()), body)
      ensures failed == (old(failed) || r.Err?)
    {
      if !Reaches(faults, false) {
        failed := true;
        return Err(Unavailable);
      }
      // BEGIN IMMEDIATE: the locals below are the transaction.
      var db := Db();
      if !StateAdmitted(state) || (state.lastId > 0 && !TailIntact(hash, db)) {
        failed := true;
        return Err(Unavailable);
      }
      var event := Event(state.lastId + 1, body);
      if event.id >= ID_LIMIT || event.id in rows {
        failed := true;
        return Err(Unavailable);
      }
      var previous := state.lastDigest;
      var digest := hash(previous, event);
      var newRows := rows[event.id := Row(event, previous, digest)];
      var newState := state.(lastId := event.id, lastDigest := digest);
      var cutoff := event.id - MAX_AUDIT_ROWS;
      if cutoff > state.anchorId {
        if cutoff !in newRows {
          failed := true;
          return Err(Unavailable);
        }
        newState := newState.(anchorId := cutoff, anchorDigest := newRows[cutoff].digest);
        newRows := After(newRows, cutoff);
      }
      state, rows := newState, newRows;  // COMMIT
      if !faults.admittedAfter {
        failed := true;
        return Err(Unavailable);
      }
      return Ok(event.id);
    }

    /** The loop over a page's rows, each rehashed and checked against its predecessor. */
    method RowsIntact(ids: seq<nat>) returns (intact: bool)
      requires forall id | id in ids :: id in rows
      ensures intact <==> AllIntact(hash, Db(), ids)
    {
      var i := 0;
      while i < |ids|
        invariant 0 <= i <= |ids|
        invariant forall k | 0 <= k < i :: RowIntact(hash, Db(), ids[k])
      {
        if !RowIntact(hash, Db(), ids[i]) {
          assert ids[i] in ids;
          return false;
        }
        i := i + 1;
      }
      return true;
    }

    /** The checks on a query itself, in the order they are made. */
    method Admits(filter: Filter, before: Option<nat>, limit: int, forExport: bool) returns (admitted: bool)
      ensures admitted <==>
                && 1 <= limit <= (if forExport then 10_000 else 100)
                && (before.Some? ==> 1 <= before.value < 0x8000_0000_0000_0000)
                && (filter.action.Some? ==> filter.action.value in names.actions)
                && (filter.outcome.Some? ==> filter.outcome.value in names.outcomes)
                && (filter.start.Some? || filter.end.Some? ==>
                      filter.start.Some? && filter.end.Some? && filter.start.value < filter.end.value)
      ensures admitted == QueryAdmitted(names, filter, before, limit, forExport)
    {
      if !(1 <= limit <= if forExport then MAX_EXPORT_ROWS else MAX_PAGE_ROWS) {
        return false;
      }
      if before.Some? && !(1 <= before.value < ID_LIMIT) {
        return false;
      }
      if (filter.action.Some? && filter.action.value !in names.actions)
         || (filter.outcome.Some? && filter.outcome.value !in names.outcomes) {
        return false;
      }
      if filter.start.Some? || filter.end.Some? {
        return filter.start.Some? && filter.end.Some? && filter.start.value < filter.end.value;
      }
      return true;
    }

    /** One page, with every row re-verified; whether an earlier operation failed makes no difference to the answer. */
    method Events(filter: Filter, before: Option<nat>, limit: int, forExport: bool, faults: Faults)
      returns (r: Result<Page, AuditError>)
      modifies this`failed
      ensures if !QueryAdmitted(names, filter, before, limit, forExport) then
                r == Err(QueryRefused) && failed == old(failed)
              else
                var page := ReadPage(hash, Db(), filter, before, limit);
                && r == (if connected && faults == Faults(true, true, true) && page.Some? then Ok(page.value)
                         else Err(Unavailable))
                && failed == (old(failed) || r.Err?)
    {
      hide IsSelection, StateAdmitted, AllIntact, RowIntact, FilterAdmitted, Selected, PageOf;
      var admitted := Admits(filter, before, limit, forExport);
      if !admitted {
        return Err(QueryRefused);
      }
      SelectedStored(rows, filter, if before.Some? then before.value else ID_LIMIT, limit + 1);
      if !Reaches(faults, true) || !StateAdmitted(state) || |rows| != state.lastId - state.anchorId {
        failed := true;
        return Err(Unavailable);
      }
      var below := if before.Some? then before.value else ID_LIMIT;
      var ids := Select(rows, filter, below, limit + 1);
      var intact := RowsIntact(ids);
      if !intact {
        failed := true;
        return Err(Unavailable);
      }
      if !faults.admittedAfter {
        failed := true;
        return Err(Unavailable);
      }
      return Ok(PageOf(Db(), if |ids| > limit then ids[..limit] else ids, |ids| > limit));
    }
  }

  // ---------------------------------------------------------------- whole runs

  /** One `record` call of a run and what the environment did to it. */
  datatype Attempt = Attempt(body: Body, faults: Faults)

  datatype Log = Log(db: Database, failed: bool)

  /** The effect of one `record` call on an open store. */
  function Recorded(hash: Hash, log: Log, a: Attempt): Log {
    var appended := Append(hash, log.db, a.body);
    if log.failed || !a.faults.admittedBefore || !a.faults.databaseWorks || appended.None? then log.(failed := true)
    else Log(appended.value, !a.faults.admittedAfter)
  }

  function Run(hash: Hash, log: Log, attempts: seq<Attempt>): Log {
    if attempts == [] then log
    else Recorded(hash, Run(hash, log, attempts[..|attempts| - 1]), attempts[|attempts| - 1])
  }

  /** The bodies a run really appended: everything up to and including the first call that failed late. */
  function Committed(attempts: seq<Attempt>): seq<Body> {
    if attempts == [] then []
    else if !attempts[0].faults.admittedBefore || !attempts[0].faults.databaseWorks then []
    else [attempts[0].body] + if attempts[0].faults.admittedAfter then Committed(attempts[1..]) else []
  }

  predicate AllSound(attempts: seq<Attempt>) {
    forall a | a in attempts :: a.faults == Faults(true, true, true)
  }

  lemma NothingCommitted()
    ensures Committed([]) == [] && AllSound([])
  {
  }

  lemma AllSoundSnoc(attempts: seq<Attempt>, a: Attempt)
    ensures AllSound(attempts + [a]) <==> AllSound(attempts) && a.faults == Faults(true, true, true)
  {
    if AllSound(attempts + [a]) {
      assert a in attempts + [a] && forall b | b in attempts :: b in attempts + [a];
    }
  }

  lemma {:induction false} CommittedSnoc(attempts: seq<Attempt>, a: Attempt)
    ensures Committed(attempts + [a]) ==
            if AllSound(attempts) && a.faults.admittedBefore && a.faults.databaseWorks
            then Committed(attempts) + [a.body] else Committed(attempts)
    ensures |Committed(attempts)| <= |attempts|
  {
    if attempts == [] {
      assert [a][1..] == [];
      assert Committed([a]) == if a.faults.admittedBefore && a.faults.databaseWorks then [a.body] else [];
    } else {
      CommittedSnoc(attempts[1..], a);
      assert (attempts + [a])[1..] == attempts[1..] + [a];
      assert forall b :: b in attempts <==> b == attempts[0] || b in attempts[1..];
    }
  }

  /**
   The refinement over whole runs of a store opened on any history: after any calls with any faults
   the bounded database is the image of exactly that history and the committed appends, it still
   verifies, and the log is latched failed exactly when some call failed.
   */
  lemma {:induction false} RunRefinesIdeal(hash: Hash, past: seq<Body>, attempts: seq<Attempt>)
    requires |past| + |attempts| < ID_LIMIT
    ensures Run(hash, Log(Image(hash, past), false), attempts) ==
            Log(Image(hash, past + Committed(attempts)), !AllSound(attempts))
    ensures Chained(hash, Image(hash, past + Committed(attempts)))
  {
    hide Append, Chained, Image, Committed, AllSound;
    NothingCommitted();
    var n := |attempts|;
    if n == 0 {
      assert past + [] == past;
      ImageChained(hash, past);
    } else {
      var init, a := attempts[..n - 1], attempts[n - 1];
      assert attempts == init + [a];
      RunRefinesIdeal(hash, past, init);
      CommittedSnoc(init, a);
      AllSoundSnoc(init, a);
      assert past + (Committed(init) + [a.body]) == (past + Committed(init)) + [a.body];
      if AllSound(init) {
        AppendRefines(hash, past + Committed(init), a.body);
      }
      ImageChained(hash, past + Committed(attempts));
    }
  }

  lemma ImageRows(hash: Hash, history: seq<Body>)
    ensures var rows, dropped, n := Image(hash, history).rows, Anchor(history), |history|;
            && |rows| == n - dropped
            && (forall id :: id in rows <==> dropped < id <= n)
            && (forall id | id in rows :: rows[id].event == Event(id, history[id - 1]))
  {
    hide Fold;
    IntervalCount(Image(hash, history).rows, Anchor(history), |history|);
  }

  /** What a bounded database of `n` appended events holds: the newest of them, and the digests at both ends. */
  lemma ImageHoldsNewest(hash: Hash, history: seq<Body>)
    ensures var db, n := Image(hash, history), |history|;
            var dropped := if n <= MAX_AUDIT_ROWS then 0 else n - MAX_AUDIT_ROWS;
            && |db.rows| == n - dropped
            && (forall id :: id in db.rows <==> dropped < id <= n)
            && (forall id | id in db.rows :: db.rows[id].event == Event(id, history[id - 1]))
            && db.state == StateRow(dropped, Fold(hash, history[..dropped], dropped), n, Fold(hash, history, n))
  {
    hide Fold, IdealRow;
    var dropped := Anchor(history);
    ImageRows(hash, history);
    assert history[..dropped] + history[dropped..] == history;
    FoldOfPrefix(hash, history[..dropped], history[dropped..], dropped);
  }
}
