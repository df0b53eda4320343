/**
 * A cycle over PostgreSQL while other writers commit.  Planning reads the tip and the hash at each
 * height one by one and at different times; nothing relates what it read to the tables it commits to.
 */
module StalePlans {
  import opened Domain
  import opened Chain
  import opened Memory
  import opened Syncer
  import opened SyncSafety
  import opened Postgres
  import opened PostgresSafety
  import opened PostgresWriters
  import opened Acceptance

  /** What a cycle decides when it read `tip` as the stored tip and the hashes of `seen` at single heights. */
  ghost predicate PlannedFrom(seen: Bundles, tip: Option<ChainTip>, c: Config, env: Env, d: Decision) {
    && ConfigError(c) == None
    && Located(env.head) == Ok(d.head)
    && ReplacementStart(seen, env, tip, d.head, WindowStart(d.head.number, c.blockWindow)) == Ok(d.plan)
    && Suffix(env, d.plan.from, d.head) == Ok(d.blocks)
  }

  /** The shape of a decision: its blocks reach from inside the window up to the selected head. */
  ghost predicate EndsInHead(d: Decision, retainFrom: uint64) {
    && retainFrom <= d.head.number
    && retainFrom <= d.plan.from <= d.head.number + 1
    && (d.plan.mode.Current? <==> d.plan.from == d.head.number + 1)
    && |d.blocks| == d.head.number + 1 - d.plan.from
    && (d.blocks != [] ==> d.blocks[|d.blocks| - 1].block.hash == d.head.hash)
  }

  lemma StalePlanStaysInWindow(seen: Bundles, tip: Option<ChainTip>, env: Env, head: ChainTip, retainFrom: uint64,
                               plan: Plan)
    requires retainFrom <= head.number && head.number - retainFrom < MAX_BLOCK_WINDOW
    requires ReplacementStart(seen, env, tip, head, retainFrom) == Ok(plan)
    ensures retainFrom <= plan.from <= head.number + 1
    ensures plan.mode.Current? <==> plan.from == head.number + 1
  {
  }

  lemma StaleDecision(seen: Bundles, tip: Option<ChainTip>, c: Config, env: Env, d: Decision)
    requires PlannedFrom(seen, tip, c, env, d)
    ensures EndsInHead(d, WindowStart(d.head.number, c.blockWindow))
  {
    StalePlanStaysInWindow(seen, tip, env, d.head, WindowStart(d.head.number, c.blockWindow), d.plan);
    if d.plan.from <= d.head.number {
      SuffixIsRange(env, d.plan.from, d.head);
    }
  }

  lemma StaleTip(m: Bundles, r: Bundles, retainFrom: uint64, from: uint64, head: ChainTip, blocks: seq<Bundle>)
    requires Spliced(m, r, retainFrom, from, head.number, blocks) && retainFrom <= head.number
    requires from <= head.number ==> blocks[|blocks| - 1].block.hash == head.hash
    ensures TipOf(r) == Some(head) <==>
            from <= head.number || (head.number in m && m[head.number].block.hash == head.hash)
  {
    if head.number in r {
      assert IsHighest(r, head.number);
      TipIs(r, head.number);
    }
  }

  /** The tables end in the selected head, or would do so without the update. */
  ghost predicate HoldsHead(m: Bundles, d: Decision) {
    d.head.number in m && m[d.head.number].block.hash == d.head.hash
  }

  lemma StaleCandidate(m: Bundles, u: CanonicalUpdate, d: Decision)
    requires EndsInHead(d, u.retainFrom) && ValidReplacement(u) && u.replaceFrom == d.plan.from && u.blocks == d.blocks
    ensures TipOf(Candidate(m, u)) == Some(d.head) <==> !d.plan.mode.Current? || HoldsHead(m, d)
  {
    CandidateIsSpliced(m, u, d.head.number);
    StaleTip(m, Candidate(m, u), u.retainFrom, u.replaceFrom, d.head, u.blocks);
  }

  /**
   * A plan made from any reads and committed to any tables leaves a chain that the in-memory store
   * accepts as well.  It ends in the selected head exactly when the plan was not `current` or the
   * tables hold that head at the time of the commit.
   */
  lemma StaleCommit(db: Db, s: Ledger, c: Config, env: Env, seen: Bundles, tip: Option<ChainTip>, d: Decision)
    requires Mirrors(db, s) && PlannedFrom(seen, tip, c, env, d)
    requires Transact(db, UpdateOf(c, env, d)).Ok?
    ensures var u := UpdateOf(c, env, d);
            && Accepts(s, u)
            && Mirrors(Transact(db, u).value, Applied(s, u))
            && (TipInTables(Transact(db, u).value) == Some(d.head) <==>
                   !d.plan.mode.Current? || HoldsHead(s.bundles, d))
  {
    var u := UpdateOf(c, env, d);
    PostgresRefinesMemory(db, s, u);
    StaleDecision(seen, tip, c, env, d);
    StaleCandidate(s.bundles, u, d);
    TipMatches(Transact(db, u).value, Applied(s, u).bundles);
  }

  // Two writers with a window of one block: one commits the head (5, 106) and later finds it current,
  // then the other replaces that block by (5, 105), then the first commits again.

  const STALE_CONFIG := Config(true, 1, Some(1), 1, "latest", 1)

  const STALE_HEAD := ChainTip(5, 106)

  const STALE_BLOCK := Bundle(Block(5, 106, 104, 0, 0, 0, None, 0, 0), [], [])

  const STALE_ENV := Env(HeaderFound(Header(Some(5), 106)), (n: uint64) => HeaderFailed, (n: uint64) => Err(Rpc),
                         0, false, (n: uint64) => false, false, false)

  const STALE_DECISION := Decision(STALE_HEAD, Some(STALE_HEAD), Plan(6, Current, None), [])

  function Replacing(b: Bundle): CanonicalUpdate {
    CanonicalUpdate(1, 5, 5, [b], 0)
  }

  /** An empty block at height 5. */
  predicate IsSample(b: Bundle) {
    b == STALE_BLOCK || b == ORPHAN
  }

  lemma SampleIsChain(b: Bundle)
    requires IsSample(b)
    ensures ValidChain(map[5 := b]) && UniqueHashes(map[5 := b])
  {
    assert ValidBundle(b);
  }

  lemma ReplacingIsAccepted(s: Ledger, b: Bundle)
    requires IsSample(b) && (s.chainID == 0 || s.chainID == 1)
    ensures Accepts(s, Replacing(b)) && InRange(Replacing(b)) && ParentPresent(s.bundles, Replacing(b))
    ensures Applied(s, Replacing(b)) == Ledger(1, map[5 := b], 0)
  {
    CandidateContents(s.bundles, Replacing(b));
    assert Candidate(s.bundles, Replacing(b)) == map[5 := b];
    SampleIsChain(b);
  }

  /** Whatever the tables of this chain held, the update leaves its one block. */
  lemma ReplacingCommits(db: Db, s: Ledger, b: Bundle)
    requires Mirrors(db, s) && IsSample(b) && (s.chainID == 0 || s.chainID == 1)
    ensures Mirrors(Attempt(db, Replacing(b)), Ledger(1, map[5 := b], 0))
  {
    ReplacingIsAccepted(s, b);
    SampleIsChain(b);
    CommitsExactly(db, s, Replacing(b));
    PostgresRefinesMemory(db, s, Replacing(b));
  }

  /** The tables when the first writer plans, and when it commits. */
  const BEFORE := [Replacing(STALE_BLOCK)]
  const BETWEEN := [Replacing(STALE_BLOCK), Replacing(ORPHAN)]

  lemma HistoryIsMirrored()
    ensures Mirrors(AfterWriters(BEFORE), Ledger(1, map[5 := STALE_BLOCK], 0))
    ensures Mirrors(AfterWriters(BETWEEN), Ledger(1, map[5 := ORPHAN], 0))
  {
    EmptyStoresMirror();
    assert BEFORE[..0] == [] && BETWEEN[..1] == BEFORE;
    assert AfterWriters([]) == EMPTY_DB;
    ReplacingCommits(EMPTY_DB, EMPTY_LEDGER, STALE_BLOCK);
    ReplacingCommits(AfterWriters(BEFORE), Ledger(1, map[5 := STALE_BLOCK], 0), ORPHAN);
  }

  lemma SampleTip(db: Db, b: Bundle)
    requires Mirrors(db, Ledger(1, map[5 := b], 0))
    ensures TipInTables(db) == Some(ChainTip(5, b.block.hash))
  {
    TipMatches(db, map[5 := b]);
    TipIs(map[5 := b], 5);
  }

  lemma StaleUpdateIsAccepted()
    ensures var u, s := UpdateOf(STALE_CONFIG, STALE_ENV, STALE_DECISION), Ledger(1, map[5 := ORPHAN], 0);
            && Accepts(s, u) && InRange(u) && ParentPresent(s.bundles, u) && UniqueHashes(Candidate(s.bundles, u))
            && Applied(s, u) == s
  {
    SampleIsChain(ORPHAN);
    var u := UpdateOf(STALE_CONFIG, STALE_ENV, STALE_DECISION);
    assert u == CanonicalUpdate(1, 6, 5, [], 0);
    assert Candidate(map[5 := ORPHAN], u) == map[5 := ORPHAN];
  }

  /** Planning on the tables before finds their tip current. */
  lemma StalePlanIsCurrent(db: Db)
    requires TipInTables(db) == Some(STALE_HEAD)
    ensures PlannedFrom(Headers(db), TipInTables(db), STALE_CONFIG, STALE_ENV, STALE_DECISION)
  {
  }

  /** Committing that plan to tables that hold the other block keeps the other block. */
  lemma StaleUpdateCommits(db: Db)
    requires Mirrors(db, Ledger(1, map[5 := ORPHAN], 0))
    ensures var r := Transact(db, UpdateOf(STALE_CONFIG, STALE_ENV, STALE_DECISION));
            r.Ok? && TipInTables(r.value) == Some(ChainTip(5, 105))
  {
    var s, u := Ledger(1, map[5 := ORPHAN], 0), UpdateOf(STALE_CONFIG, STALE_ENV, STALE_DECISION);
    StaleUpdateIsAccepted();
    CommitsExactly(db, s, u);
    PostgresRefinesMemory(db, s, u);
    SampleTip(Transact(db, u).value, ORPHAN);
  }

  /**
   * The first writer plans on tables whose tip is the selected head (5, 106).  Another writer then
   * commits (5, 105).  The commit of the first succeeds and reports its head, and the tip is (5, 105).
   */
  lemma StaleCurrentPlanMissesHead()
    ensures var planned := AfterWriters(BEFORE);
            && TipInTables(planned) == Some(STALE_HEAD)
            && PlannedFrom(Headers(planned), TipInTables(planned), STALE_CONFIG, STALE_ENV, STALE_DECISION)
    ensures var r := Transact(AfterWriters(BETWEEN), UpdateOf(STALE_CONFIG, STALE_ENV, STALE_DECISION));
            r.Ok? && TipInTables(r.value) == Some(ChainTip(5, 105))
    ensures ResultOf(STALE_CONFIG, STALE_ENV, STALE_DECISION).head == STALE_HEAD
  {
    HistoryIsMirrored();
    SampleTip(AfterWriters(BEFORE), STALE_BLOCK);
    StalePlanIsCurrent(AfterWriters(BEFORE));
    StaleUpdateCommits(AfterWriters(BETWEEN));
  }
}
