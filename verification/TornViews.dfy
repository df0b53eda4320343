/**
 * When an endpoint that changes its view during a cycle makes the store reject the update.  That
 * error is permanent, so the retry loop does not try again.
 */
module TornViews {
  import opened Domain
  import opened Chain
  import opened Memory
  import opened Syncer
  import opened SyncSafety
  import opened SyncRefinement
  import opened PostgresSafety
  import opened Acceptance
  import opened Fetcher
  import opened Runner
  import Ranger

  /** Every block that the cycle may get is one that FetchBlock makes of some answers. */
  ghost predicate FetchesBlocks(c: Config, env: Env) {
    forall n: uint64 :: Fetchable(c.chainID, n, env.fetch(n))
  }

  /** The first new block does not name the retained block below it. */
  predicate BreaksLink(m: Bundles, u: CanonicalUpdate) {
    && |u.blocks| > 0 && u.retainFrom < u.replaceFrom && u.replaceFrom - 1 in m
    && u.blocks[0].block.parentHash != m[u.replaceFrom - 1].block.hash
  }

  lemma {:induction false} AncestorFailure(m: Bundles, env: Env, tip: ChainTip, head: ChainTip,
                                           retainFrom: uint64, number: uint64)
    requires retainFrom <= number
    ensures AncestorFrom(m, env, tip, head, retainFrom, number) != Err(InvalidCanonicalUpdate)
    decreases number
  {
    if number > retainFrom {
      AncestorFailure(m, env, tip, head, retainFrom, number - 1);
    }
  }

  lemma PlanFailure(m: Bundles, env: Env, tip: Option<ChainTip>, head: ChainTip, retainFrom: uint64)
    requires retainFrom <= head.number && head.number - retainFrom < MAX_BLOCK_WINDOW
    ensures ReplacementStart(m, env, tip, head, retainFrom) != Err(InvalidCanonicalUpdate)
  {
    if tip.Some? && retainFrom <= tip.value.number <= head.number {
      AncestorFailure(m, env, tip.value, head, retainFrom, Min(tip.value.number, head.number));
    }
  }

  /** Only the store rejects an update; no decision fails that way. */
  lemma DecideFailure(m: Bundles, c: Config, env: Env)
    ensures Decide(m, c, env) != Err(InvalidCanonicalUpdate)
  {
    if ConfigError(c) == None && Located(env.head).Ok? {
      var head := Located(env.head).value;
      PlanFailure(m, env, TipOf(m), head, WindowStart(head.number, c.blockWindow));
    }
  }

  lemma AncestorIsStored(m: Bundles, env: Env, tip: ChainTip, head: ChainTip, retainFrom: uint64)
    requires m != map[] && TipOf(m) == Some(tip) && retainFrom <= tip.number && retainFrom <= head.number
    ensures var r := AncestorFrom(m, env, tip, head, retainFrom, Min(tip.number, head.number));
            r.Ok? && r.value.Some? ==> r.value.value.number in m
  {
    var start := Min(tip.number, head.number);
    if AncestorFrom(m, env, tip, head, retainFrom, start).Ok? {
      AncestorIsHighestAgreement(m, env, tip, head, retainFrom, start);
    }
  }

  /** A plan above the window start stands on a stored block. */
  lemma PlanHasParent(m: Bundles, env: Env, head: ChainTip, retainFrom: uint64, plan: Plan)
    requires retainFrom <= head.number && head.number - retainFrom < MAX_BLOCK_WINDOW
    requires ReplacementStart(m, env, TipOf(m), head, retainFrom) == Ok(plan)
    ensures plan.from > retainFrom ==> plan.from - 1 in m
  {
    if m != map[] {
      var tip := TipOf(m).value;
      if retainFrom <= tip.number <= head.number && tip != head {
        AncestorIsStored(m, env, tip, head, retainFrom);
      }
    }
  }

  /** The fetched part of a decision passes all checks of the store but the one for repeated transactions. */
  lemma FetchedPartFits(c: Config, env: Env, from: uint64, head: ChainTip, blocks: seq<Bundle>)
    requires FetchesBlocks(c, env) && Suffix(env, from, head) == Ok(blocks)
    ensures Wellformed(ByNumber(blocks)) && Contiguous(ByNumber(blocks)) && Linked(ByNumber(blocks))
    ensures forall i | 0 <= i < |blocks| :: blocks[i].block.number == from + i
  {
    if from <= head.number {
      var a := Answers(env, from, head.number);
      assert Ranger.RangeResult(a, from, env.fetchCancelled) == Ok(blocks);
      FetchedRangeFitsStore(c.chainID, a, from, env.fetchCancelled, blocks);
      SuffixIsRange(env, from, head);
    }
  }

  /** What the store looks at in an update whose parts are sound. */
  lemma AcceptsExactly(s: Ledger, u: CanonicalUpdate)
    requires ValidChain(s.bundles) && u.chainID != 0 && (s.chainID == 0 || s.chainID == u.chainID)
    requires u.retainFrom <= u.replaceFrom && ValidReplacement(u) && ParentPresent(s.bundles, u)
    requires Wellformed(ByNumber(u.blocks)) && Contiguous(ByNumber(u.blocks)) && Linked(ByNumber(u.blocks))
    ensures Accepts(s, u) <==> !BreaksLink(s.bundles, u) && UniqueTransactions(Candidate(s.bundles, u))
  {
    var m := s.bundles;
    if !BreaksLink(m, u) {
      assert ParentFits(m, u);
      CandidateIsContiguous(m, u);
      CandidateIsLinked(m, u);
      CandidateIsWellformed(m, u);
    } else if Accepts(s, u) {
      PresentParentFits(m, u);
    }
  }

  lemma DecisionIsSound(s: Ledger, c: Config, env: Env, d: Decision)
    requires Invariant(s, c) && FetchesBlocks(c, env) && Decide(s.bundles, c, env) == Ok(d)
    ensures c.chainID != 0
    ensures var u := UpdateOf(c, env, d);
            && u.retainFrom <= u.replaceFrom && ValidReplacement(u) && ParentPresent(s.bundles, u)
            && Wellformed(ByNumber(u.blocks)) && Contiguous(ByNumber(u.blocks)) && Linked(ByNumber(u.blocks))
  {
    DecisionParts(s.bundles, c, env);
    var retainFrom := WindowStart(d.head.number, c.blockWindow);
    PlanStaysInWindow(s.bundles, env, d.head, retainFrom);
    PlanHasParent(s.bundles, env, d.head, retainFrom, d.plan);
    FetchedPartFits(c, env, d.plan.from, d.head, d.blocks);
  }

  /**
   * The cycle ends in the permanent error exactly when it decided on an update, was not cancelled, and
   * the first new block does not name the retained block below it or a transaction occurs twice.
   */
  lemma TornViewIsRejected(s: Ledger, c: Config, env: Env)
    requires Invariant(s, c) && FetchesBlocks(c, env)
    ensures SyncCycle(s, c, env) == Err(InvalidCanonicalUpdate) <==>
            && Decide(s.bundles, c, env).Ok? && !env.applyCancelled
            && var u := UpdateOf(c, env, Decide(s.bundles, c, env).value);
               BreaksLink(s.bundles, u) || !UniqueTransactions(Candidate(s.bundles, u))
  {
    DecideFailure(s.bundles, c, env);
    if Decide(s.bundles, c, env).Ok? {
      var d := Decide(s.bundles, c, env).value;
      DecisionIsSound(s, c, env, d);
      AcceptsExactly(s, UpdateOf(c, env, d));
    }
  }

  /** Such an attempt is the last one of its round, however many retries are left. */
  lemma TornViewIsNotRetried(sync: Sync, s: Ledger, c: RunConfig, round: Round)
    requires ValidBackoff(c)
    requires sync(s, round.attempts(0).env) == Err(InvalidCanonicalUpdate) && !round.attempts(0).cancelled
    ensures RoundOn(sync, s, c, round) == Retried(Permanent(InvalidCanonicalUpdate), 1, [])
  {
  }

  // A store that holds block (0, 100), and an endpoint that first shows it as part of its chain and then
  // returns a block 1 on top of another block.

  const TORN_CONFIG := Config(true, 1, Some(1), 2, "latest", 1)

  const GENESIS := Bundle(Block(0, 100, 99, 0, 0, 0, None, 0, 0), [], [])

  const TORN_BLOCK := Bundle(Block(1, 201, 200, 0, 0, 0, None, 0, 0), [], [])

  const TORN_LEDGER := Ledger(1, map[0 := GENESIS], 0)

  const TORN_ENV := Env(HeaderFound(Header(Some(1), 201)),
                        (n: uint64) => HeaderFound(Header(Some(n), 100)),
                        (n: uint64) => if n == 1 then Ok(TORN_BLOCK) else Err(Rpc),
                        0, false, (n: uint64) => false, false, false)

  const TORN_DECISION := Decision(ChainTip(1, 201), Some(ChainTip(0, 100)), Plan(1, Append, None), [TORN_BLOCK])

  lemma TornLedgerIsInvariant()
    ensures Invariant(TORN_LEDGER, TORN_CONFIG) && TipOf(TORN_LEDGER.bundles) == Some(ChainTip(0, 100))
  {
    assert ValidBundle(GENESIS);
    TipIs(TORN_LEDGER.bundles, 0);
  }

  lemma TornBlockIsFetched()
    ensures Fetched(1, 1, BlockFound(EthBlock(Some(1), 201, 200, 0, 0, 0, None, [])), LogsFound([]), 0)
            == Ok(TORN_BLOCK)
  {
  }

  lemma TornEnvFetchesBlocks()
    ensures FetchesBlocks(TORN_CONFIG, TORN_ENV)
  {
    TornBlockIsFetched();
    forall n: uint64 ensures Fetchable(1, n, TORN_ENV.fetch(n)) {
      if n != 1 {
        assert TORN_ENV.fetch(n) == Fetched(1, n, BlockFailed, LogsFailed, 0);
      }
    }
  }

  lemma TornPlan(m: Bundles)
    ensures ReplacementStart(m, TORN_ENV, Some(ChainTip(0, 100)), ChainTip(1, 201), 0) == Ok(TORN_DECISION.plan)
  {
    assert AncestorFrom(m, TORN_ENV, ChainTip(0, 100), ChainTip(1, 201), 0, 0) == Ok(Some(ChainTip(0, 100)));
  }

  lemma TornSuffix()
    ensures Suffix(TORN_ENV, 1, ChainTip(1, 201)) == Ok([TORN_BLOCK])
  {
    var a := Answers(TORN_ENV, 1, 1);
    assert a == [Ok(TORN_BLOCK)];
    assert seq(|a|, i requires 0 <= i < |a| => a[i].value) == [TORN_BLOCK];
    assert Ranger.RangeResult(a, 1, false) == Ok([TORN_BLOCK]);
  }

  /** The torn view happens: the append that was planned is rejected for good. */
  lemma TornViewHappens()
    ensures Invariant(TORN_LEDGER, TORN_CONFIG) && FetchesBlocks(TORN_CONFIG, TORN_ENV)
    ensures SyncCycle(TORN_LEDGER, TORN_CONFIG, TORN_ENV) == Err(InvalidCanonicalUpdate)
  {
    TornLedgerIsInvariant();
    TornEnvFetchesBlocks();
    TornPlan(TORN_LEDGER.bundles);
    TornSuffix();
    assert Decide(TORN_LEDGER.bundles, TORN_CONFIG, TORN_ENV) == Ok(TORN_DECISION);
    assert BreaksLink(TORN_LEDGER.bundles, UpdateOf(TORN_CONFIG, TORN_ENV, TORN_DECISION));
    TornViewIsRejected(TORN_LEDGER, TORN_CONFIG, TORN_ENV);
  }
}
