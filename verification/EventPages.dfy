/** Pages of an address's events: the read side of internal/store/memory.go. */
module EventPages {
  import opened Domain
  import opened Chain
  import opened Sorting

  /** The place of an event in the chain; block number first, then log index. */
  function Position(e: Event): int {
    e.blockNumber * 0x1_0000_0000 + e.logIndex
  }

  /** Events are listed newest first. */
  function Newest(e: Event): int {
    -Position(e)
  }

  function CursorOf(e: Event): (c: EventCursor) {
    EventCursor(e.blockNumber, e.blockHash, e.logIndex)
  }

  predicate EventBeforeCursor(e: Event, cursor: Option<EventCursor>) {
    if cursor == None then true
    else if e.blockNumber != cursor.value.blockNumber then e.blockNumber < cursor.value.blockNumber
    else e.logIndex < cursor.value.logIndex
  }

  lemma BeforeIsPosition(e: Event, last: Event)
    ensures EventBeforeCursor(e, Some(CursorOf(last))) <==> Position(e) < Position(last)
    ensures Position(e) == Position(last) <==> e.blockNumber == last.blockNumber && e.logIndex == last.logIndex
  {
  }

  predicate Selected(e: Event, address: Address, before: Option<EventCursor>) {
    e.address == address && EventBeforeCursor(e, before)
  }

  ghost predicate Stored(m: Bundles, e: Event) {
    exists n :: n in m && e in m[n].events
  }

  /** The stored events that a query asks for. */
  ghost function Matching(m: Bundles, address: Address, before: Option<EventCursor>): (es: set<Event>)
    ensures forall e :: e in es <==> Stored(m, e) && Selected(e, address, before)
  {
    set n, e | n in m && e in m[n].events && Selected(e, address, before) :: e
  }

  predicate CursorIsCanonical(m: Bundles, c: EventCursor) {
    c.blockNumber in m && m[c.blockNumber].block.hash == c.blockHash
  }

  /** `s` lists exactly the events of `es`, newest first and each once. */
  ghost predicate Lists(s: seq<Event>, es: set<Event>) {
    StrictlyAscending(s, Newest) && forall e :: e in s <==> e in es
  }

  ghost predicate DistinctPositions(es: set<Event>) {
    forall a, b | a in es && b in es && Position(a) == Position(b) :: a == b
  }

  /** No two stored events share a position, and each carries the number and hash of its block. */
  ghost predicate Pageable(m: Bundles) {
    && (forall e | Stored(m, e) :: CursorIsCanonical(m, CursorOf(e)))
    && (forall a, b | Stored(m, a) && Stored(m, b) && Position(a) == Position(b) :: a == b)
  }

  lemma EventHasOnePlace(m: Bundles, n: uint64, e: Event)
    requires Wellformed(m) && n in m && e in m[n].events
    ensures e.blockNumber == n && e.blockHash == m[n].block.hash
  {
    assert ValidBundle(m[n]);
    var i :| 0 <= i < |m[n].events| && m[n].events[i] == e;
    assert EventFits(m[n], m[n].events[i]);
  }

  lemma EventsOfOneBlock(b: Bundle, x: Event, y: Event)
    requires DistinctLogs(b.events) && x in b.events && y in b.events && x.logIndex == y.logIndex
    ensures x == y
  {
    var i :| 0 <= i < |b.events| && b.events[i] == x;
    var j :| 0 <= j < |b.events| && b.events[j] == y;
    assert i == j;
  }

  lemma ChainIsPageable(m: Bundles)
    requires Wellformed(m)
    ensures Pageable(m)
  {
    forall e | Stored(m, e) ensures CursorIsCanonical(m, CursorOf(e)) {
      var n :| n in m && e in m[n].events;
      EventHasOnePlace(m, n, e);
    }
    forall a, b | Stored(m, a) && Stored(m, b) && Position(a) == Position(b) ensures a == b {
      var n :| n in m && a in m[n].events;
      var k :| k in m && b in m[k].events;
      EventHasOnePlace(m, n, a);
      EventHasOnePlace(m, k, b);
      BeforeIsPosition(a, b);
      assert ValidBundle(m[n]);
      EventsOfOneBlock(m[n], a, b);
    }
  }

  ghost function Enumerate(es: set<Event>): (s: seq<Event>)
    ensures forall e :: e in s <==> e in es
    ensures DistinctPositions(es) ==> DistinctKeys(s, Newest)
  {
    if es == {} then [] else
    var e :| e in es;
    var rest := Enumerate(es - {e});
    assert forall x :: x in [e] + rest <==> x == e || x in rest;
    [e] + rest
  }

  /** The events of a set, newest first; see ListOfLists. */
  ghost function ListOf(es: set<Event>): (s: seq<Event>) {
    if exists s :: Lists(s, es) then
      var s :| Lists(s, es); s
    else []
  }

  lemma ListOfLists(es: set<Event>)
    requires DistinctPositions(es)
    ensures Lists(ListOf(es), es)
  {
    var s := Enumerate(es);
    SortIsAscending(s, Newest);
    SameElements(SortBy(s, Newest), s);
    assert Lists(SortBy(s, Newest), es);
  }

  lemma ListOfIsOnly(es: set<Event>, s: seq<Event>)
    requires Lists(s, es)
    ensures s == ListOf(es)
  {
    ListingIsUnique(s, ListOf(es), Newest);
  }

  /** All events of the query, newest first. */
  ghost function Listing(m: Bundles, address: Address, before: Option<EventCursor>): (s: seq<Event>) {
    ListOf(Matching(m, address, before))
  }

  lemma ListingLists(m: Bundles, address: Address, before: Option<EventCursor>)
    requires Pageable(m)
    ensures Lists(Listing(m, address, before), Matching(m, address, before))
  {
    ListOfLists(Matching(m, address, before));
  }

  lemma ListingIsOnly(m: Bundles, address: Address, before: Option<EventCursor>, s: seq<Event>)
    requires Pageable(m) && Lists(s, Matching(m, address, before))
    ensures s == Listing(m, address, before)
  {
    ListOfIsOnly(Matching(m, address, before), s);
  }

  /** Cuts a listing to a page; the cursor is the last event of a page that leaves something out. */
  function Cut(all: seq<Event>, limit: uint32): (page: EventPage) {
    if limit == 0 || |all| == 0 then EventPage([], None)
    else if |all| <= limit then EventPage(all, None)
    else EventPage(all[..limit], Some(CursorOf(all[limit - 1])))
  }

  /** What a query returns from a store. */
  ghost function PageOf(m: Bundles, q: EventQuery): (r: Result<EventPage>) {
    if q.limit > MAX_EVENT_PAGE_SIZE then Err(InvalidQuery)
    else if q.before.Some? && !CursorIsCanonical(m, q.before.value) then Err(StaleCursor)
    else Ok(Cut(Listing(m, q.address, q.before), q.limit))
  }

  lemma SuffixIsBelow(all: seq<Event>, k: nat, e: Event)
    requires StrictlyAscending(all, Newest) && 0 < k <= |all|
    ensures e in all[k..] <==> e in all && Position(e) < Position(all[k - 1])
  {
    assert forall i | k <= i < |all| :: all[i] in all[k..] && Newest(all[k - 1]) < Newest(all[i]);
    assert forall i | 0 <= i < k :: Newest(all[i]) <= Newest(all[k - 1]);
  }

  lemma NarrowedMatching(m: Bundles, address: Address, before: Option<EventCursor>, last: Event, e: Event)
    requires EventBeforeCursor(last, before)
    ensures e in Matching(m, address, Some(CursorOf(last))) <==>
            e in Matching(m, address, before) && Position(e) < Position(last)
  {
    BeforeIsPosition(e, last);
    assert EventBeforeCursor(e, Some(CursorOf(last))) ==> EventBeforeCursor(e, before);
  }

  /** Going on behind the k-th event of a listing gives the rest of the listing. */
  lemma ListingContinues(m: Bundles, address: Address, before: Option<EventCursor>, k: nat)
    requires Pageable(m) && 0 < k <= |Listing(m, address, before)|
    ensures var all := Listing(m, address, before);
            && CursorIsCanonical(m, CursorOf(all[k - 1]))
            && Listing(m, address, Some(CursorOf(all[k - 1]))) == all[k..]
  {
    var all := Listing(m, address, before);
    ListingLists(m, address, before);
    var last := all[k - 1];
    assert last in all;
    assert Stored(m, last);
    forall e ensures e in all[k..] <==> e in Matching(m, address, Some(CursorOf(last))) {
      SuffixIsBelow(all, k, e);
      NarrowedMatching(m, address, before, last, e);
    }
    ListingIsOnly(m, address, Some(CursorOf(last)), all[k..]);
  }

  /** All events a client gets by following the cursors to the end. */
  ghost function Follow(m: Bundles, address: Address, limit: uint32, before: Option<EventCursor>): (s: seq<Event>)
    requires Pageable(m) && 1 <= limit <= MAX_EVENT_PAGE_SIZE
    requires before.Some? ==> CursorIsCanonical(m, before.value)
    decreases |Listing(m, address, before)|
  {
    var page := PageOf(m, EventQuery(address, limit, before)).value;
    if page.nextCursor == None then page.events else
    ListingContinues(m, address, before, limit);
    page.events + Follow(m, address, limit, page.nextCursor)
  }

  lemma FollowLastPage(m: Bundles, address: Address, limit: uint32, before: Option<EventCursor>)
    requires Pageable(m) && 1 <= limit <= MAX_EVENT_PAGE_SIZE
    requires before.Some? ==> CursorIsCanonical(m, before.value)
    requires |Listing(m, address, before)| <= limit
    ensures Follow(m, address, limit, before) == Listing(m, address, before)
  {
  }

  lemma FollowOnePage(m: Bundles, address: Address, limit: uint32, before: Option<EventCursor>, next: EventCursor)
    requires Pageable(m) && 1 <= limit <= MAX_EVENT_PAGE_SIZE
    requires before.Some? ==> CursorIsCanonical(m, before.value)
    requires |Listing(m, address, before)| > limit && next == CursorOf(Listing(m, address, before)[limit - 1])
    ensures CursorIsCanonical(m, next)
    ensures Listing(m, address, Some(next)) == Listing(m, address, before)[limit..]
    ensures Follow(m, address, limit, before)
            == Listing(m, address, before)[..limit] + Follow(m, address, limit, Some(next))
  {
    ListingContinues(m, address, before, limit);
  }

  lemma CutJoins<T>(whole: seq<T>, k: nat, first: seq<T>, rest: seq<T>)
    requires k <= |whole| && first == whole[..k] && rest == whole[k..]
    ensures first + rest == whole
  {
  }

  /** Following cursors from page to page shows the whole listing, whatever the page size. */
  lemma {:induction false} FollowingIsListing(m: Bundles, address: Address, limit: uint32, before: Option<EventCursor>)
    requires Pageable(m) && 1 <= limit <= MAX_EVENT_PAGE_SIZE
    requires before.Some? ==> CursorIsCanonical(m, before.value)
    ensures Follow(m, address, limit, before) == Listing(m, address, before)
    decreases |Listing(m, address, before)|
  {
    var all := Listing(m, address, before);
    if |all| <= limit {
      FollowLastPage(m, address, limit, before);
    } else {
      var next := CursorOf(all[limit - 1]);
      FollowOnePage(m, address, limit, before, next);
      FollowingIsListing(m, address, limit, Some(next));
      CutJoins(all, limit, all[..limit], Follow(m, address, limit, Some(next)));
    }
  }

  /**
   * Complete pagination: on an unchanged store, with any page size, following the cursors ends and
   * yields every event of the address exactly once, in descending order.
   */
  lemma FollowingIsComplete(m: Bundles, address: Address, limit: uint32)
    requires Pageable(m) && 1 <= limit <= MAX_EVENT_PAGE_SIZE
    ensures Lists(Follow(m, address, limit, None), Matching(m, address, None))
  {
    FollowingIsListing(m, address, limit, None);
    ListingLists(m, address, None);
  }
}
