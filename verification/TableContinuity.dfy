/** Cursor continuity for the tables, over the commits of any writers. */
module TableContinuity {
  import opened Domain
  import opened Chain
  import opened Memory
  import opened EventPages
  import opened SyncRefinement
  import opened CursorContinuity
  import opened Postgres
  import opened PostgresRefinement
  import opened PostgresSafety
  import opened PostgresWriters
  import opened PostgresPages

  /** Every block of the updates has the content that belongs to its hash. */
  ghost predicate UpdatesRespect(w: World, us: seq<CanonicalUpdate>) {
    forall i, b | 0 <= i < |us| && b in us[i].blocks :: Determined(w, b)
  }

  lemma {:induction false} BlocksAreDetermined(w: World, blocks: seq<Bundle>)
    requires forall b | b in blocks :: Determined(w, b)
    ensures Consistent(w, ByNumber(blocks))
  {
    if blocks != [] {
      BlocksAreDetermined(w, blocks[..|blocks| - 1]);
    }
  }

  lemma {:induction false} MirrorIsConsistent(w: World, us: seq<CanonicalUpdate>)
    requires UpdatesRespect(w, us)
    ensures Consistent(w, MirrorOf(us).bundles)
  {
    if us != [] {
      var init, u := us[..|us| - 1], us[|us| - 1];
      assert forall i | 0 <= i < |init| :: init[i] == us[i];
      MirrorIsConsistent(w, init);
      BlocksAreDetermined(w, u.blocks);
    }
  }

  /** The ordered rows of mirrored tables are the listing of the chain. */
  lemma RowsAreListing(db: Db, s: Ledger, address: Address, before: Option<EventCursor>)
    requires Mirrors(db, s)
    ensures OrderedRows(db, address, before) == Listing(s.bundles, address, before)
  {
    WellformedPlacesEvents(s.bundles);
    RowsAreEvents(db, s.bundles, address, before);
  }

  /** The tables show none of the address's events below a height. */
  ghost predicate NoOlderRows(db: Db, address: Address, low: uint64) {
    forall k | k in db.events && k.blockNumber < low :: db.events[k].address != address
  }

  lemma NoOlderRowsIsNothingOlder(db: Db, m: Bundles, address: Address, low: uint64)
    requires EventsMatch(db, m) && Placed(m)
    ensures NoOlderRows(db, address, low) <==> NothingOlder(m, address, low)
  {
    if NothingOlder(m, address, low) {
      forall k | k in db.events && k.blockNumber < low ensures db.events[k].address != address {
        KeyNamesBlock(m, k);
        var e :| e in m[k.blockNumber].events && KeyOf(e) == k;
        assert IsRow(db, e);
      }
    }
    if NoOlderRows(db, address, low) {
      forall n, e | n in m && n < low && e in m[n].events ensures e.address != address {
        assert IsRow(db, e);
      }
    }
  }

  lemma MirroredCursor(db: Db, s: Ledger, cursor: EventCursor)
    requires Mirrors(db, s) && CursorExists(db, cursor)
    ensures CursorIsCanonical(s.bundles, cursor)
  {
    assert cursor.blockNumber in s.bundles.Keys;
  }

  lemma MirroredLowest(db: Db, s: Ledger, low: uint64)
    requires Mirrors(db, s) && low in db.blocks && forall n | n in db.blocks :: low <= n
    ensures IsLowest(s.bundles, low)
  {
    assert forall n :: n in s.bundles.Keys <==> n in db.blocks.Keys;
  }

  lemma MirrorsContinue(w: World, earlier: Db, later: Db, s: Ledger, t: Ledger, cursor: EventCursor,
                        address: Address, lowM: uint64, lowR: uint64)
    requires Mirrors(earlier, s) && Mirrors(later, t) && Consistent(w, s.bundles) && Consistent(w, t.bundles)
    requires CursorExists(earlier, cursor) && CursorExists(later, cursor)
    requires lowM in earlier.blocks && forall n | n in earlier.blocks :: lowM <= n
    requires lowR in later.blocks && forall n | n in later.blocks :: lowR <= n
    ensures OrderedRows(later, address, Some(cursor)) == KeepFrom(OrderedRows(earlier, address, Some(cursor)), lowR)
            <==> NoOlderRows(later, address, lowM)
  {
    MirroredCursor(earlier, s, cursor);
    MirroredCursor(later, t, cursor);
    MirroredLowest(earlier, s, lowM);
    MirroredLowest(later, t, lowR);
    RowsAreListing(earlier, s, address, Some(cursor));
    RowsAreListing(later, t, address, Some(cursor));
    WellformedIsPlaced(t.bundles);
    NoOlderRowsIsNothingOlder(later, t.bundles, address, lowM);
    ContinuesExactly(w, s.bundles, t.bundles, cursor, address, lowM, lowR);
  }

  /**
   * A cursor that the tables accept after some commits and again after any further ones has behind it
   * the rows that were behind it, less those of removed blocks, if and only if the later tables show
   * no row of the address below the height where the earlier ones began.
   */
  lemma TablesContinueExactly(w: World, us: seq<CanonicalUpdate>, more: seq<CanonicalUpdate>, cursor: EventCursor,
                              address: Address, lowM: uint64, lowR: uint64)
    requires UpdatesRespect(w, us) && UpdatesRespect(w, us + more)
    requires CursorExists(AfterWriters(us), cursor) && CursorExists(AfterWriters(us + more), cursor)
    requires lowM in AfterWriters(us).blocks && forall n | n in AfterWriters(us).blocks :: lowM <= n
    requires lowR in AfterWriters(us + more).blocks && forall n | n in AfterWriters(us + more).blocks :: lowR <= n
    ensures var earlier, later := AfterWriters(us), AfterWriters(us + more);
            OrderedRows(later, address, Some(cursor)) == KeepFrom(OrderedRows(earlier, address, Some(cursor)), lowR)
            <==> NoOlderRows(later, address, lowM)
  {
    WritersAreMirrored(us);
    WritersAreMirrored(us + more);
    MirrorIsConsistent(w, us);
    MirrorIsConsistent(w, us + more);
    MirrorsContinue(w, AfterWriters(us), AfterWriters(us + more), MirrorOf(us), MirrorOf(us + more),
                    cursor, address, lowM, lowR);
  }
}
