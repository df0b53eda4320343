/** Any number of writers, and the sync cycle over the PostgreSQL store. */
module PostgresWriters {
  import opened Domain
  import opened Chain
  import opened Memory
  import opened Postgres
  import opened PostgresRefinement
  import opened PostgresSafety
  import opened Syncer

  /** The tables after one attempt; a failed transaction is rolled back. */
  ghost function Attempt(db: Db, u: CanonicalUpdate): Db {
    if Transact(db, u).Ok? then Transact(db, u).value else db
  }

  /**
   * The tables after the attempts of any writers in the order in which they got the lock.  The
   * updates are arbitrary: a writer may have planned its update on a state long gone.
   */
  ghost function AfterWriters(us: seq<CanonicalUpdate>): Db {
    if us == [] then EMPTY_DB else Attempt(AfterWriters(us[..|us| - 1]), us[|us| - 1])
  }

  /** The in-memory store after exactly the updates that were committed. */
  ghost function MirrorOf(us: seq<CanonicalUpdate>): Ledger {
    if us == [] then EMPTY_LEDGER else
    var init, u := us[..|us| - 1], us[|us| - 1];
    if Transact(AfterWriters(init), u).Ok? then Applied(MirrorOf(init), u) else MirrorOf(init)
  }

  lemma {:induction false} WritersAreMirrored(us: seq<CanonicalUpdate>)
    ensures Mirrors(AfterWriters(us), MirrorOf(us))
  {
    if us != [] {
      WritersAreMirrored(us[..|us| - 1]);
      var db, s, u := AfterWriters(us[..|us| - 1]), MirrorOf(us[..|us| - 1]), us[|us| - 1];
      if Transact(db, u).Ok? {
        PostgresRefinesMemory(db, s, u);
      }
    }
  }

  ghost predicate ChainInTables(db: Db) {
    && (forall a, b, k: uint64 | a in db.blocks && b in db.blocks && a <= k <= b :: k in db.blocks)
    && (forall a, b | a in db.blocks && b in db.blocks && b == a + 1 :: db.blocks[b].parentHash == db.blocks[a].hash)
  }

  /** Every row has its parents, an event in the same block and at the index of its transaction. */
  ghost predicate ReferencesHold(db: Db) {
    && (forall h | h in db.transactions :: db.transactions[h].blockNumber in db.blocks)
    && (forall k | k in db.events ::
          && k.blockNumber in db.blocks
          && db.events[k].transactionHash in db.transactions
          && db.transactions[db.events[k].transactionHash].blockNumber == k.blockNumber
          && db.transactions[db.events[k].transactionHash].index == db.events[k].transactionIndex)
  }

  /** At most one chain was ever indexed, and its row names the highest stored block. */
  ghost predicate OneChain(db: Db) {
    && |db.syncState| <= 1
    && (forall c | c in db.syncState :: c > 0 && IsTip(db, db.syncState[c].tip))
    && (db.syncState == map[] ==> db.blocks == map[])
  }

  lemma MirrorIsChain(db: Db, m: Bundles)
    requires BlocksMatch(db, m) && Contiguous(m) && Linked(m)
    ensures ChainInTables(db)
  {
    assert forall k :: k in db.blocks <==> k in m by {
      assert forall k :: k in db.blocks.Keys <==> k in m.Keys;
    }
    assert forall n | n in m ::
        db.blocks[n].hash == m[n].block.hash && db.blocks[n].parentHash == m[n].block.parentHash;
  }

  lemma EventNamesTransaction(b: Bundle, e: Event)
    requires ValidBundle(b) && e in b.events
    ensures e.transactionIndex < |b.transactions|
    ensures b.transactions[e.transactionIndex].hash == e.transactionHash
    ensures b.transactions[e.transactionIndex].blockNumber == b.block.number
    ensures b.transactions[e.transactionIndex].index == e.transactionIndex
  {
    var i :| 0 <= i < |b.events| && b.events[i] == e;
    assert EventFits(b, b.events[i]);
    assert TransactionFits(b, e.transactionIndex);
  }

  lemma EventReference(db: Db, m: Bundles, n: uint64, e: Event)
    requires Represents(db, m) && n in m && e in m[n].events
    requires ValidBundle(m[n]) && m[n].block.number == n && e.blockNumber == n
    ensures KeyOf(e) in db.events && KeyOf(e).blockNumber in db.blocks
    ensures var h := db.events[KeyOf(e)].transactionHash;
            && h in db.transactions
            && db.transactions[h].blockNumber == n
            && db.transactions[h].index == db.events[KeyOf(e)].transactionIndex
  {
    assert n in db.blocks.Keys;
    EventNamesTransaction(m[n], e);
    var t := m[n].transactions[e.transactionIndex];
    assert t in m[n].transactions;
    assert IsRow(db, e) && db.transactions[t.hash] == TransactionRowOf(t);
  }

  lemma MirrorHoldsReferences(db: Db, m: Bundles)
    requires Represents(db, m) && Wellformed(m)
    ensures ReferencesHold(db)
  {
    WellformedIsPlaced(m);
    forall h | h in db.transactions ensures db.transactions[h].blockNumber in db.blocks {
      var t := RowNamesBlock(db, m, h);
      assert t.blockNumber in db.blocks.Keys;
    }
    forall k | k in db.events
      ensures k.blockNumber in db.blocks
      ensures db.events[k].transactionHash in db.transactions
      ensures db.transactions[db.events[k].transactionHash].blockNumber == k.blockNumber
      ensures db.transactions[db.events[k].transactionHash].index == db.events[k].transactionIndex
    {
      KeyNamesBlock(m, k);
      var e :| e in m[k.blockNumber].events && KeyOf(e) == k;
      EventReference(db, m, k.blockNumber, e);
    }
  }

  lemma MirrorIsOneChain(db: Db, s: Ledger)
    requires BlocksMatch(db, s.bundles) && StateMatches(db, s)
    ensures OneChain(db)
  {
    TipMatches(db, s.bundles);
    if s.chainID == 0 {
      assert db.blocks.Keys == {};
      assert db.blocks == map[];
    }
  }

  /**
   * Multi-writer safety: after every commit of any writers, with arbitrarily stale plans and in any
   * lock order, the tables hold one contiguous hash-linked chain with referential integrity, at most
   * one chain ID, and a sync state that names the highest stored block.
   */
  lemma CommittedStatesAreCanonical(us: seq<CanonicalUpdate>)
    ensures var db := AfterWriters(us);
            ChainInTables(db) && ReferencesHold(db) && OneChain(db)
  {
    WritersAreMirrored(us);
    var db, s := AfterWriters(us), MirrorOf(us);
    MirrorIsChain(db, s.bundles);
    MirrorHoldsReferences(db, s.bundles);
    MirrorIsOneChain(db, s);
  }

  /** The blocks table read as a chain without transactions and events. */
  function Headers(db: Db): (m: Bundles) {
    map n | n in db.blocks ::
      var b := db.blocks[n];
      Bundle(Block(n, b.hash, b.parentHash, b.timestamp, b.gasLimit, b.gasUsed, b.baseFee,
                   b.transactionCount, b.indexedAt), [], [])
  }

  datatype PostgresCycle = PostgresCycle(db: Db, result: SyncResult)

  /**
   * A cycle over the PostgreSQL store with no other writer in between: planning reads the blocks
   * table, then one transaction changes it.  StalePlans has the case of other writers.
   */
  ghost function SyncOverPostgres(db: Db, c: Config, env: Env): (r: Result<PostgresCycle>) {
    var d :- Decide(Headers(db), c, env);
    if !PreValid(UpdateOf(c, env, d)) then Err(InvalidCanonicalUpdate)
    else if env.applyCancelled then Err(Cancelled) else
    var committed :- Transact(db, UpdateOf(c, env, d));
    Ok(PostgresCycle(committed, ResultOf(c, env, d)))
  }

  ghost predicate SameHeaders(m: Bundles, r: Bundles) {
    m.Keys == r.Keys && forall n | n in m :: m[n].block.hash == r[n].block.hash
  }

  lemma {:induction false} SearchReadsHeaders(m: Bundles, r: Bundles, env: Env, tip: ChainTip, head: ChainTip,
                                              retainFrom: uint64, number: uint64)
    requires SameHeaders(m, r) && retainFrom <= number
    ensures AncestorFrom(m, env, tip, head, retainFrom, number) == AncestorFrom(r, env, tip, head, retainFrom, number)
    decreases number
  {
    assert number in m <==> number in r by {
      assert number in m.Keys <==> number in r.Keys;
    }
    if number > retainFrom {
      SearchReadsHeaders(m, r, env, tip, head, retainFrom, number - 1);
    }
  }

  lemma TipReadsHeaders(m: Bundles, r: Bundles)
    requires SameHeaders(m, r)
    ensures TipOf(m) == TipOf(r)
  {
    assert forall n :: n in m <==> n in r by {
      assert forall n :: n in m.Keys <==> n in r.Keys;
    }
    assert m == map[] <==> r == map[];
    if m != map[] {
      assert IsHighest(r, TipOf(m).value.number);
      TipIs(r, TipOf(m).value.number);
    }
  }

  lemma PlanReadsHeaders(m: Bundles, r: Bundles, env: Env, tip: Option<ChainTip>, head: ChainTip, retainFrom: uint64)
    requires SameHeaders(m, r) && retainFrom <= head.number && head.number - retainFrom < MAX_BLOCK_WINDOW
    ensures ReplacementStart(m, env, tip, head, retainFrom) == ReplacementStart(r, env, tip, head, retainFrom)
  {
    if tip.Some? && retainFrom <= tip.value.number <= head.number {
      SearchReadsHeaders(m, r, env, tip.value, head, retainFrom, Min(tip.value.number, head.number));
    }
  }

  /** Planning looks at heights and hashes only. */
  lemma DecideReadsHeaders(m: Bundles, r: Bundles, c: Config, env: Env)
    requires SameHeaders(m, r)
    ensures Decide(m, c, env) == Decide(r, c, env)
  {
    if ConfigError(c) == None && Located(env.head).Ok? {
      var head := Located(env.head).value;
      TipReadsHeaders(m, r);
      PlanReadsHeaders(m, r, env, TipOf(m), head, WindowStart(head.number, c.blockWindow));
    }
  }

  /**
   * What a successful cycle does over PostgreSQL it does over the in-memory store as well, with the
   * same result.  PostgresRuns has whole runs of such cycles.
   */
  lemma PostgresCycleIsMemoryCycle(db: Db, s: Ledger, c: Config, env: Env)
    requires Mirrors(db, s) && SyncOverPostgres(db, c, env).Ok?
    ensures SyncCycle(s, c, env).Ok?
    ensures SyncCycle(s, c, env).value.result == SyncOverPostgres(db, c, env).value.result
    ensures Mirrors(SyncOverPostgres(db, c, env).value.db, SyncCycle(s, c, env).value.ledger)
  {
    assert SameHeaders(Headers(db), s.bundles);
    DecideReadsHeaders(Headers(db), s.bundles, c, env);
    PostgresRefinesMemory(db, s, UpdateOf(c, env, Decide(s.bundles, c, env).value));
  }
}
