/** Event pages from the tables: internal/store/postgres_events.go. */
module PostgresPages {
  import opened Domain
  import opened Chain
  import opened Sorting
  import opened Memory
  import opened EventPages
  import opened Postgres
  import opened PostgresRefinement
  import opened PostgresSafety

  /** The row of an event joined with the hash of its block. */
  function JoinedEvent(db: Db, k: EventKey): Event
    requires k in db.events && k.blockNumber in db.blocks
  {
    var row := db.events[k];
    Event(k.blockNumber, db.blocks[k.blockNumber].hash, row.transactionHash, row.transactionIndex, k.logIndex,
          row.address, row.topics, row.data)
  }

  /** The rows that the query selects, in no order. */
  ghost function SelectedRows(db: Db, address: Address, before: Option<EventCursor>): (es: set<Event>) {
    set k | k in db.events && k.blockNumber in db.blocks && Selected(JoinedEvent(db, k), address, before) ::
        JoinedEvent(db, k)
  }

  /** ORDER BY block_number DESC, log_index DESC. */
  ghost function OrderedRows(db: Db, address: Address, before: Option<EventCursor>): (s: seq<Event>) {
    ListOf(SelectedRows(db, address, before))
  }

  predicate CursorExists(db: Db, c: EventCursor) {
    c.blockNumber <= MAX_INT64 && c.blockNumber in db.blocks && db.blocks[c.blockNumber].hash == c.blockHash
  }

  /** Asks for one row more than the page holds to learn whether a next page exists. */
  function LimitPlusOne(all: seq<Event>, limit: uint32): (page: EventPage)
    requires limit > 0
  {
    var rows := if |all| <= limit + 1 then all else all[..limit + 1];
    if |rows| <= limit then EventPage(rows, None) else
    var events := rows[..|rows| - 1];
    EventPage(events, Some(CursorOf(events[|events| - 1])))
  }

  ghost function PageFromTables(db: Db, q: EventQuery): (r: Result<EventPage>) {
    if q.limit > MAX_EVENT_PAGE_SIZE then Err(InvalidQuery)
    else if q.before.Some? && !CursorExists(db, q.before.value) then Err(StaleCursor)
    else if q.limit == 0 then Ok(EventPage([], None))
    else Ok(LimitPlusOne(OrderedRows(db, q.address, q.before), q.limit))
  }

  /** Each event stands in its block and names it. */
  ghost predicate EventsPlaced(m: Bundles) {
    forall n, e | n in m && e in m[n].events :: e.blockNumber == n && e.blockHash == m[n].block.hash
  }

  lemma WellformedPlacesEvents(m: Bundles)
    requires Wellformed(m)
    ensures EventsPlaced(m)
  {
    forall n, e | n in m && e in m[n].events ensures e.blockNumber == n && e.blockHash == m[n].block.hash {
      EventHasOnePlace(m, n, e);
    }
  }

  lemma JoinRestoresEvent(db: Db, m: Bundles, n: uint64, e: Event)
    requires BlocksMatch(db, m) && EventsMatch(db, m) && EventsPlaced(m) && n in m && e in m[n].events
    ensures KeyOf(e) in db.events && KeyOf(e).blockNumber in db.blocks && JoinedEvent(db, KeyOf(e)) == e
  {
    assert n in db.blocks.Keys;
    assert IsRow(db, e);
  }

  lemma RowIsStored(db: Db, m: Bundles, k: EventKey)
    requires BlocksMatch(db, m) && EventsMatch(db, m) && EventsPlaced(m) && k in db.events && k.blockNumber in db.blocks
    ensures Stored(m, JoinedEvent(db, k))
  {
    var n :| n in m && HasKey(m[n], k);
    var e :| e in m[n].events && KeyOf(e) == k;
    JoinRestoresEvent(db, m, n, e);
  }

  /** The selected rows are the selected events of the chain. */
  lemma RowsAreEvents(db: Db, m: Bundles, address: Address, before: Option<EventCursor>)
    requires BlocksMatch(db, m) && EventsMatch(db, m) && EventsPlaced(m)
    ensures SelectedRows(db, address, before) == Matching(m, address, before)
  {
    forall e | e in SelectedRows(db, address, before) ensures e in Matching(m, address, before) {
      var k :| k in db.events && k.blockNumber in db.blocks && Selected(JoinedEvent(db, k), address, before)
          && e == JoinedEvent(db, k);
      RowIsStored(db, m, k);
    }
    forall e | e in Matching(m, address, before) ensures e in SelectedRows(db, address, before) {
      var n :| n in m && e in m[n].events;
      JoinRestoresEvent(db, m, n, e);
    }
  }

  lemma CutsAgree(all: seq<Event>, limit: uint32)
    requires limit > 0
    ensures LimitPlusOne(all, limit) == Cut(all, limit)
  {
    if |all| > limit {
      var rows := if |all| <= limit + 1 then all else all[..limit + 1];
      assert rows[..|rows| - 1] == all[..limit];
    }
  }

  /** Pages from the tables are the pages of the in-memory store, cursors and errors included. */
  lemma PagesAgree(db: Db, s: Ledger, q: EventQuery)
    requires Mirrors(db, s)
    ensures PageFromTables(db, q) == PageOf(s.bundles, q)
  {
    WellformedPlacesEvents(s.bundles);
    RowsAreEvents(db, s.bundles, q.address, q.before);
    if q.limit > 0 {
      CutsAgree(Listing(s.bundles, q.address, q.before), q.limit);
    }
    if q.before.Some? {
      var n := q.before.value.blockNumber;
      assert n in db.blocks <==> n in s.bundles by {
        assert n in db.blocks.Keys <==> n in s.bundles.Keys;
      }
    }
  }

  /** The primary key orders the joined rows without ties. */
  lemma RowsHaveDistinctPositions(db: Db, address: Address, before: Option<EventCursor>)
    ensures DistinctPositions(SelectedRows(db, address, before))
  {
    forall a, b | a in SelectedRows(db, address, before) && b in SelectedRows(db, address, before)
        && Position(a) == Position(b)
      ensures a == b
    {
      BeforeIsPosition(a, b);
    }
  }

  /** For any tables the ordered rows are exactly the selected ones, strictly newest first. */
  lemma OrderedRowsListSelected(db: Db, address: Address, before: Option<EventCursor>)
    ensures Lists(OrderedRows(db, address, before), SelectedRows(db, address, before))
  {
    RowsHaveDistinctPositions(db, address, before);
    ListOfLists(SelectedRows(db, address, before));
  }

  lemma OrderedRowsAreOnly(db: Db, address: Address, before: Option<EventCursor>, s: seq<Event>)
    requires Lists(s, SelectedRows(db, address, before))
    ensures s == OrderedRows(db, address, before)
  {
    ListOfIsOnly(SelectedRows(db, address, before), s);
  }

  /** The rows of the query, joined, filtered and ordered. */
  method QueryRows(db: Db, q: EventQuery) returns (rows: seq<Event>)
    ensures Lists(rows, SelectedRows(db, q.address, q.before))
    ensures rows == OrderedRows(db, q.address, q.before)
  {
    var found: seq<Event> := [];
    var rest := db.events.Keys;
    while rest != {}
      invariant rest <= db.events.Keys
      invariant forall e | e in found :: KeyOf(e) in db.events && KeyOf(e) !in rest
      invariant DistinctKeys(found, Newest)
      invariant forall e :: e in found <==> e in SelectedRows(db, q.address, q.before) && KeyOf(e) !in rest
      decreases rest
    {
      var k :| k in rest;
      if k.blockNumber in db.blocks && Selected(JoinedEvent(db, k), q.address, q.before) {
        var e := JoinedEvent(db, k);
        forall x | x in found ensures Newest(x) != Newest(e) {
          BeforeIsPosition(x, e);
        }
        found := found + [e];
      }
      rest := rest - {k};
    }
    rows := SortBy(found, Newest);
    SortIsAscending(found, Newest);
    SameElements(rows, found);
    OrderedRowsAreOnly(db, q.address, q.before, rows);
  }

  /** The page of a result that holds at most one row too many. */
  method PageOfRows(rows: seq<Event>, limit: uint32) returns (page: EventPage)
    requires 0 < limit && |rows| <= limit + 1
    ensures page == LimitPlusOne(rows, limit)
  {
    if |rows| <= limit {
      return EventPage(rows, None);
    }
    var kept := rows[..|rows| - 1];
    var last := kept[|kept| - 1];
    return EventPage(kept, Some(EventCursor(last.blockNumber, last.blockHash, last.logIndex)));
  }

  method QueryAddressEventPage(db: Db, q: EventQuery) returns (page: EventPage)
    ensures page == if q.limit == 0 then EventPage([], None)
                    else LimitPlusOne(OrderedRows(db, q.address, q.before), q.limit)
  {
    if q.limit == 0 {
      return EventPage([], None);
    }
    var rows := QueryRows(db, q);
    page := PageOfRows(if |rows| <= q.limit + 1 then rows else rows[..q.limit + 1], q.limit);
  }

  /** One read-only transaction over one snapshot of the tables. */
  method EventsByAddress(db: Db, q: EventQuery) returns (r: Result<EventPage>)
    ensures r == PageFromTables(db, q)
  {
    if q.limit > MAX_EVENT_PAGE_SIZE {
      return Err(InvalidQuery);
    }
    if q.before.Some? && !CursorExists(db, q.before.value) {
      return Err(StaleCursor);
    }
    var page := QueryAddressEventPage(db, q);
    return Ok(page);
  }
}
