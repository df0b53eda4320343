/**
 * What a cursor still means after the store has changed.  A cursor is accepted as long as its block
 * is stored; the lemmas say what paging on from it returns then.
 */
module CursorContinuity {
  import opened Domain
  import opened Chain
  import opened Sorting
  import opened Memory
  import opened EventPages
  import opened Syncer
  import opened SyncSafety
  import opened SyncRefinement

  /** A listing without the events below a height. */
  function KeepFrom(s: seq<Event>, low: uint64): (r: seq<Event>) {
    if s == [] then []
    else if s[0].blockNumber >= low then [s[0]] + KeepFrom(s[1..], low)
    else KeepFrom(s[1..], low)
  }

  lemma {:induction false} KeepFromElements(s: seq<Event>, low: uint64)
    ensures forall e :: e in KeepFrom(s, low) <==> e in s && e.blockNumber >= low
  {
    if s != [] {
      KeepFromElements(s[1..], low);
      assert s == [s[0]] + s[1..];
    }
  }

  lemma {:induction false} KeepFromIsAscending(s: seq<Event>, low: uint64)
    requires StrictlyAscending(s, Newest)
    ensures StrictlyAscending(KeepFrom(s, low), Newest)
  {
    if s != [] {
      KeepFromIsAscending(s[1..], low);
      KeepFromElements(s[1..], low);
      assert forall e | e in s[1..] :: Newest(s[0]) < Newest(e);
      ConsIsAscending(s[0], KeepFrom(s[1..], low), Newest);
    }
  }

  /** Two chains that share a block agree on every height below it that both hold. */
  lemma {:induction false} SharedBlockSharesPast(w: World, m: Bundles, r: Bundles, k: uint64, n: uint64)
    requires ValidChain(m) && ValidChain(r) && Consistent(w, m) && Consistent(w, r)
    requires k in m && k in r && m[k].block.hash == r[k].block.hash && n in m && n in r && n <= k
    ensures Content(m[n]) == Content(r[n])
    decreases k
  {
    assert Determined(w, m[k]) && Determined(w, r[k]);
    if n < k {
      var below: uint64 := k - 1;
      assert n <= below <= k;
      assert Content(m[k]).block.parentHash == Content(r[k]).block.parentHash;
      SharedBlockSharesPast(w, m, r, below, n);
    }
  }

  /** An event behind the cursor in one store is behind it in the other, if its block is there. */
  lemma EventIsShared(w: World, m: Bundles, r: Bundles, cursor: EventCursor, address: Address, low: uint64, e: Event)
    requires ValidChain(m) && ValidChain(r) && Consistent(w, m) && Consistent(w, r)
    requires CursorIsCanonical(m, cursor) && CursorIsCanonical(r, cursor)
    requires IsLowest(r, low) && e in Matching(m, address, Some(cursor)) && e.blockNumber >= low
    ensures e in Matching(r, address, Some(cursor))
  {
    var n :| n in m && e in m[n].events;
    EventHasOnePlace(m, n, e);
    assert low <= n <= cursor.blockNumber;
    SharedBlockSharesPast(w, m, r, cursor.blockNumber, n);
    assert e in r[n].events;
  }

  lemma ListingFacts(m: Bundles, address: Address, cursor: EventCursor, low: uint64)
    requires ValidChain(m) && IsLowest(m, low)
    ensures Lists(Listing(m, address, Some(cursor)), Matching(m, address, Some(cursor)))
    ensures forall e | e in Listing(m, address, Some(cursor)) :: e.blockNumber >= low
  {
    ChainIsPageable(m);
    ListingLists(m, address, Some(cursor));
    forall e | e in Listing(m, address, Some(cursor)) ensures e.blockNumber >= low {
      assert e in Matching(m, address, Some(cursor));
      assert CursorIsCanonical(m, CursorOf(e));
    }
  }

  /** On the heights that both stores hold, the two listings behind a shared cursor are the same. */
  lemma SharedListing(w: World, m: Bundles, r: Bundles, cursor: EventCursor, address: Address, lowM: uint64,
                      lowR: uint64)
    requires ValidChain(m) && ValidChain(r) && Consistent(w, m) && Consistent(w, r)
    requires CursorIsCanonical(m, cursor) && CursorIsCanonical(r, cursor) && IsLowest(m, lowM) && IsLowest(r, lowR)
    ensures KeepFrom(Listing(r, address, Some(cursor)), lowM) == KeepFrom(Listing(m, address, Some(cursor)), lowR)
  {
    var mine, theirs := Listing(m, address, Some(cursor)), Listing(r, address, Some(cursor));
    ListingFacts(m, address, cursor, lowM);
    ListingFacts(r, address, cursor, lowR);
    KeepFromElements(mine, lowR);
    KeepFromElements(theirs, lowM);
    forall e ensures e in KeepFrom(theirs, lowM) <==> e in KeepFrom(mine, lowR) {
      if e in KeepFrom(theirs, lowM) {
        EventIsShared(w, r, m, cursor, address, lowM, e);
      }
      if e in KeepFrom(mine, lowR) {
        EventIsShared(w, m, r, cursor, address, lowR, e);
      }
    }
    KeepFromIsAscending(mine, lowR);
    KeepFromIsAscending(theirs, lowM);
    ListingIsUnique(KeepFrom(theirs, lowM), KeepFrom(mine, lowR), Newest);
  }

  lemma {:induction false} KeepFromAll(s: seq<Event>, low: uint64)
    ensures (forall e | e in s :: e.blockNumber >= low) <==> KeepFrom(s, low) == s
  {
    KeepFromElements(s, low);
    if (forall e | e in s :: e.blockNumber >= low) && s != [] {
      assert forall e | e in s[1..] :: e in s;
      KeepFromAll(s[1..], low);
      assert s == [s[0]] + s[1..];
    }
  }

  /** The later store shows none of the address's events below the height where the earlier began. */
  ghost predicate NothingOlder(r: Bundles, address: Address, low: uint64) {
    forall n | n in r && n < low :: forall e | e in r[n].events :: e.address != address
  }

  lemma ListedIsNotOlder(r: Bundles, address: Address, cursor: EventCursor, low: uint64, e: Event)
    requires Wellformed(r) && NothingOlder(r, address, low) && e in Matching(r, address, Some(cursor))
    ensures e.blockNumber >= low
  {
    var n :| n in r && e in r[n].events;
    EventHasOnePlace(r, n, e);
  }

  lemma OlderMatches(r: Bundles, address: Address, cursor: EventCursor, low: uint64, n: uint64, e: Event)
    requires Wellformed(r) && low <= cursor.blockNumber && n in r && n < low && e in r[n].events && e.address == address
    ensures e in Matching(r, address, Some(cursor)) && e.blockNumber == n
  {
    EventHasOnePlace(r, n, e);
    assert Stored(r, e);
  }

  lemma OlderIsListed(r: Bundles, address: Address, cursor: EventCursor, low: uint64)
    requires ValidChain(r) && CursorIsCanonical(r, cursor) && low <= cursor.blockNumber
    ensures NothingOlder(r, address, low) <==> forall e | e in Listing(r, address, Some(cursor)) :: e.blockNumber >= low
  {
    ChainIsPageable(r);
    ListingLists(r, address, Some(cursor));
    var theirs := Listing(r, address, Some(cursor));
    if NothingOlder(r, address, low) {
      forall e | e in theirs ensures e.blockNumber >= low {
        ListedIsNotOlder(r, address, cursor, low, e);
      }
    } else {
      var n, e :| n in r && n < low && e in r[n].events && e.address == address;
      OlderMatches(r, address, cursor, low, n, e);
      assert e in theirs;
    }
  }

  /**
   * Cursor continuity, with its exact condition: paging on from an accepted cursor returns the
   * events that followed it originally, less those in pruned blocks, if and only if the later store
   * holds no event of the address below the height at which the earlier store began.
   */
  lemma ContinuesExactly(w: World, m: Bundles, r: Bundles, cursor: EventCursor, address: Address, lowM: uint64,
                         lowR: uint64)
    requires ValidChain(m) && ValidChain(r) && Consistent(w, m) && Consistent(w, r)
    requires CursorIsCanonical(m, cursor) && CursorIsCanonical(r, cursor) && IsLowest(m, lowM) && IsLowest(r, lowR)
    ensures Listing(r, address, Some(cursor)) == KeepFrom(Listing(m, address, Some(cursor)), lowR)
            <==> NothingOlder(r, address, lowM)
  {
    var mine, theirs := Listing(m, address, Some(cursor)), Listing(r, address, Some(cursor));
    SharedListing(w, m, r, cursor, address, lowM, lowR);
    ListingFacts(m, address, cursor, lowM);
    KeepFromElements(mine, lowR);
    OlderIsListed(r, address, cursor, lowM);
    KeepFromAll(theirs, lowM);
  }

  lemma WindowIsLowest(m: Bundles, window: uint64)
    requires window >= 1 && m != map[] && ExactWindow(m, window)
    ensures IsLowest(m, WindowStart(TipOf(m).value.number, window))
  {
  }

  /** The height at which a non-empty window store begins. */
  ghost function Start(m: Bundles, window: uint64): uint64
    requires window >= 1 && m != map[]
  {
    WindowStart(TipOf(m).value.number, window)
  }

  /**
   * Over whole runs: a cursor that was accepted after some cycles and is accepted again after any
   * number of further appends, reorganizations, reloads and failed cycles continues the original
   * listing, less the pruned blocks, exactly when the condition above holds.  It holds whenever the
   * tip has not fallen.
   */
  lemma CursorSurvivesRun(w: World, c: Config, envs: seq<Env>, more: seq<Env>, cursor: EventCursor,
                          address: Address, limit: uint32)
    requires ConfigError(c) == None && 1 <= limit <= MAX_EVENT_PAGE_SIZE
    requires forall i | 0 <= i < |envs| :: Respects(w, envs[i])
    requires forall i | 0 <= i < |more| :: Respects(w, more[i])
    requires CursorIsCanonical(After(c, envs).bundles, cursor)
             && CursorIsCanonical(After(c, envs + more).bundles, cursor)
    ensures var m, r := After(c, envs).bundles, After(c, envs + more).bundles;
            && Pageable(m) && Pageable(r)
            && (Follow(r, address, limit, Some(cursor))
                == KeepFrom(Follow(m, address, limit, Some(cursor)), Start(r, c.blockWindow))
                <==> NothingOlder(r, address, Start(m, c.blockWindow)))
            && (TipOf(m).value.number <= TipOf(r).value.number ==> NothingOlder(r, address, Start(m, c.blockWindow)))
  {
    var m, r := After(c, envs).bundles, After(c, envs + more).bundles;
    RunKeepsInvariant(c, envs);
    RunKeepsInvariant(c, envs + more);
    RunIsConsistent(w, c, envs);
    RunIsConsistent(w, c, envs + more);
    ChainIsPageable(m);
    ChainIsPageable(r);
    WindowIsLowest(m, c.blockWindow);
    WindowIsLowest(r, c.blockWindow);
    ContinuesExactly(w, m, r, cursor, address, Start(m, c.blockWindow), Start(r, c.blockWindow));
    FollowingIsListing(m, address, limit, Some(cursor));
    FollowingIsListing(r, address, limit, Some(cursor));
  }

  // A run in which the condition fails: with a window of two blocks the head goes back from height 3
  // to height 2, the store is reloaded, and block 1 comes back into the window.

  const SAMPLE_CONFIG := Config(true, 1, Some(1), 2, "latest", 1)

  const OLD := Event(1, 101, 7, 0, 0, 42, [], [])
  const EARLY := Event(2, 102, 8, 0, 0, 42, [], [])
  const LATE := Event(2, 102, 8, 0, 1, 42, [], [])

  function SampleChain(n: uint64): Bundle {
    if n == 0 then Bundle(Block(0, 100, 99, 0, 0, 0, None, 0, 0), [], [])
    else if n == 1 then
      Bundle(Block(1, 101, 100, 0, 0, 0, None, 1, 0),
             [Transaction(7, 1, 101, 0, 0, 0, 5, None, Some(0), 0, None, None, None, [])], [OLD])
    else if n == 2 then
      Bundle(Block(2, 102, 101, 0, 0, 0, None, 1, 0),
             [Transaction(8, 2, 102, 0, 0, 1, 5, None, Some(0), 0, None, None, None, [])], [EARLY, LATE])
    else Bundle(Block(3, 103, 102, 0, 0, 0, None, 0, 0), [], [])
  }

  function SampleWorld(h: Hash): Bundle {
    if h == 100 then SampleChain(0) else if h == 101 then SampleChain(1)
    else if h == 102 then SampleChain(2) else SampleChain(3)
  }

  function SampleEnv(top: uint64): Env {
    Env(HeaderFound(Header(Some(top), SampleChain(top).block.hash)),
        (n: uint64) => HeaderFound(Header(Some(n), SampleChain(n).block.hash)),
        (n: uint64) => Ok(SampleChain(n)),
        0, false, (n: uint64) => false, false, false)
  }

  function SampleHashes(n: uint64): set<Hash> {
    if n == 1 then {7} else if n == 2 then {8} else {}
  }

  lemma SampleBundleIsValid(n: uint64)
    ensures ValidBundle(SampleChain(n)) && TxHashes(SampleChain(n)) == SampleHashes(n)
  {
    var b := SampleChain(n);
    assert b.transactions != [] ==> TransactionFits(b, 0) && b.transactions[0] in b.transactions;
    assert forall t | t in b.transactions :: t == b.transactions[0];
  }

  lemma SampleWindowIsUnique(top: uint64)
    ensures UniqueTransactions(WindowOf(View(SampleChain, top), 2))
  {
    var m := WindowOf(View(SampleChain, top), 2);
    forall a, b | a in m && b in m && a != b ensures TxHashes(m[a]) !! TxHashes(m[b]) {
      SampleBundleIsValid(a);
      SampleBundleIsValid(b);
    }
  }

  lemma SampleWindowIsValid(top: uint64)
    requires top == 2 || top == 3
    ensures ValidChain(WindowOf(View(SampleChain, top), 2))
  {
    var m := WindowOf(View(SampleChain, top), 2);
    assert forall n | n in m :: n <= 3;
    forall n | n in m ensures ValidBundle(m[n]) {
      SampleBundleIsValid(n);
    }
    SampleWindowIsUnique(top);
  }

  lemma SampleCycle(s: Ledger, top: uint64)
    requires (top == 2 || top == 3) && Invariant(s, SAMPLE_CONFIG) && Consistent(SampleWorld, s.bundles)
    ensures SyncCycle(s, SAMPLE_CONFIG, SampleEnv(top)).Ok?
    ensures SameContents(Step(s, SAMPLE_CONFIG, SampleEnv(top)).bundles, WindowOf(View(SampleChain, top), 2))
  {
    SampleWindowIsValid(top);
    HonestCycle(SampleWorld, SAMPLE_CONFIG, SampleEnv(top), View(SampleChain, top), s);
  }

  lemma SampleRunStep(before: seq<Env>, top: uint64)
    requires (top == 2 || top == 3) && forall i | 0 <= i < |before| :: Respects(SampleWorld, before[i])
    ensures SameContents(After(SAMPLE_CONFIG, before + [SampleEnv(top)]).bundles, WindowOf(View(SampleChain, top), 2))
  {
    RunKeepsInvariant(SAMPLE_CONFIG, before);
    RunIsConsistent(SampleWorld, SAMPLE_CONFIG, before);
    SampleCycle(After(SAMPLE_CONFIG, before), top);
    assert (before + [SampleEnv(top)])[..|before|] == before;
  }

  lemma SampleAt(m: Bundles, top: uint64, n: uint64)
    requires SameContents(m, WindowOf(View(SampleChain, top), 2))
    ensures n in m <==> WindowStart(top, 2) <= n <= top
    ensures n in m ==> m[n].events == SampleChain(n).events && m[n].block.hash == SampleChain(n).block.hash
  {
    assert n in m <==> n in m.Keys;
    if n in m {
      assert Content(m[n]).events == Content(SampleChain(n)).events;
      assert Content(m[n]).block.hash == Content(SampleChain(n)).block.hash;
    }
  }

  lemma SampleStored(m: Bundles, top: uint64, e: Event)
    requires top == 2 || top == 3
    requires SameContents(m, WindowOf(View(SampleChain, top), 2))
    ensures Stored(m, e) <==> e == LATE || e == EARLY || (top == 2 && e == OLD)
  {
    SampleAt(m, top, 1);
    SampleAt(m, top, 2);
    if Stored(m, e) {
      var n :| n in m && e in m[n].events;
      SampleAt(m, top, n);
    }
  }

  /** The store holds the listed events of the address and no others. */
  ghost predicate HoldsOnly(m: Bundles, address: Address, all: seq<Event>) {
    && StrictlyAscending(all, Newest)
    && (forall e | e in all :: e.address == address)
    && (forall e :: Stored(m, e) <==> e in all)
  }

  lemma SmallListing(m: Bundles, address: Address, all: seq<Event>)
    requires Pageable(m) && HoldsOnly(m, address, all)
    ensures Listing(m, address, None) == all
  {
    assert forall e | e in all :: Selected(e, address, None);
    ListingIsOnly(m, address, None, all);
  }

  lemma SmallRest(m: Bundles, address: Address, all: seq<Event>)
    requires Pageable(m) && Listing(m, address, None) == all && all != []
    ensures CursorIsCanonical(m, CursorOf(all[0])) && Follow(m, address, 1, Some(CursorOf(all[0]))) == all[1..]
  {
    ListingContinues(m, address, None, 1);
    FollowingIsListing(m, address, 1, Some(CursorOf(all[0])));
  }

  /** With one event a page, the first page is the first event and the rest is behind its cursor. */
  lemma SmallPages(m: Bundles, address: Address, all: seq<Event>)
    requires Pageable(m) && HoldsOnly(m, address, all) && |all| > 1
    ensures PageOf(m, EventQuery(address, 1, None)) == Ok(EventPage([all[0]], Some(CursorOf(all[0]))))
    ensures CursorIsCanonical(m, CursorOf(all[0])) && Follow(m, address, 1, Some(CursorOf(all[0]))) == all[1..]
  {
    SmallListing(m, address, all);
    assert all[..1] == [all[0]];
    SmallRest(m, address, all);
  }

  lemma BeforeRollback(m: Bundles)
    requires SameContents(m, WindowOf(View(SampleChain, 3), 2))
    ensures HoldsOnly(m, 42, [LATE, EARLY])
  {
    forall e ensures Stored(m, e) <==> e in [LATE, EARLY] {
      SampleStored(m, 3, e);
    }
  }

  lemma ThreeAscending(a: Event, b: Event, c: Event)
    requires Newest(a) < Newest(b) < Newest(c)
    ensures StrictlyAscending([a, b, c], Newest)
  {
    var s := [a, b, c];
    forall i, j | 0 <= i < j < |s| ensures Newest(s[i]) < Newest(s[j]) {
      assert i == 0 || (i == 1 && j == 2);
    }
  }

  lemma SampleOrder()
    ensures Newest(LATE) < Newest(EARLY) < Newest(OLD)
  {
  }

  lemma AfterRollback(r: Bundles)
    requires SameContents(r, WindowOf(View(SampleChain, 2), 2))
    ensures HoldsOnly(r, 42, [LATE, EARLY, OLD])
  {
    SampleOrder();
    ThreeAscending(LATE, EARLY, OLD);
    forall e ensures Stored(r, e) <==> e in [LATE, EARLY, OLD] {
      SampleStored(r, 2, e);
    }
  }

  /** The two stores of the run. */
  lemma SampleRun()
    ensures var m := After(SAMPLE_CONFIG, [SampleEnv(3)]).bundles;
            Pageable(m) && SameContents(m, WindowOf(View(SampleChain, 3), 2))
    ensures var r := After(SAMPLE_CONFIG, [SampleEnv(3)] + [SampleEnv(2)]).bundles;
            Pageable(r) && SameContents(r, WindowOf(View(SampleChain, 2), 2))
  {
    var first, both := [SampleEnv(3)], [SampleEnv(3)] + [SampleEnv(2)];
    assert Respects(SampleWorld, SampleEnv(3));
    SampleRunStep([], 3);
    assert [] + first == first;
    SampleRunStep(first, 2);
    RunKeepsInvariant(SAMPLE_CONFIG, first);
    RunKeepsInvariant(SAMPLE_CONFIG, both);
    ChainIsPageable(After(SAMPLE_CONFIG, first).bundles);
    ChainIsPageable(After(SAMPLE_CONFIG, both).bundles);
  }

  /**
   * The first page of a client ends at block 2 with a cursor.  Before the rollback one event is behind
   * that cursor; after it the cursor is accepted and leads to an older event as well.
   */
  lemma RollbackRevealsOlderEvents()
    ensures var m := After(SAMPLE_CONFIG, [SampleEnv(3)]).bundles;
            var r := After(SAMPLE_CONFIG, [SampleEnv(3)] + [SampleEnv(2)]).bundles;
            var cursor := CursorOf(LATE);
            && PageOf(m, EventQuery(42, 1, None)) == Ok(EventPage([LATE], Some(cursor)))
            && CursorIsCanonical(m, cursor) && Pageable(m) && Follow(m, 42, 1, Some(cursor)) == [EARLY]
            && CursorIsCanonical(r, cursor) && Pageable(r) && Follow(r, 42, 1, Some(cursor)) == [EARLY, OLD]
  {
    SampleRun();
    var m := After(SAMPLE_CONFIG, [SampleEnv(3)]).bundles;
    var r := After(SAMPLE_CONFIG, [SampleEnv(3)] + [SampleEnv(2)]).bundles;
    BeforeRollback(m);
    SmallPages(m, 42, [LATE, EARLY]);
    AfterRollback(r);
    SmallPages(r, 42, [LATE, EARLY, OLD]);
  }
}
