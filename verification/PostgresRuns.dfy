/** Runs of cycles by one writer over the PostgreSQL store. */
module PostgresRuns {
  import opened Domain
  import opened Chain
  import opened Memory
  import opened Syncer
  import opened SyncSafety
  import opened Postgres
  import opened PostgresRefinement
  import opened PostgresSafety
  import opened PostgresWriters

  /** The tables after a run of cycles, successful or not, from empty tables. */
  ghost function TablesAfter(c: Config, envs: seq<Env>): (db: Db) {
    if envs == [] then EMPTY_DB else
    var before := TablesAfter(c, envs[..|envs| - 1]);
    var cycle := SyncOverPostgres(before, c, envs[|envs| - 1]);
    if cycle.Ok? then cycle.value.db else before
  }

  /** The tables hold no block, or exactly the heights of the window that ends in their tip. */
  ghost predicate WindowInTables(db: Db, window: uint64)
    requires window >= 1
  {
    match TipInTables(db)
    case None => db.blocks == map[]
    case Some(tip) => forall n: uint64 :: n in db.blocks <==> WindowStart(tip.number, window) <= n <= tip.number
  }

  lemma MirroredWindow(db: Db, s: Ledger, window: uint64)
    requires window >= 1 && Mirrors(db, s) && ExactWindow(s.bundles, window)
    ensures WindowInTables(db, window)
  {
    TipMatches(db, s.bundles);
    assert forall n :: n in db.blocks <==> n in s.bundles by {
      assert forall n :: n in db.blocks.Keys <==> n in s.bundles.Keys;
    }
  }

  /** A cycle keeps the invariant of the store that the tables mirror, and ends in the selected head. */
  lemma TablesCycle(db: Db, s: Ledger, c: Config, env: Env) returns (t: Ledger)
    requires Mirrors(db, s) && Invariant(s, c) && SyncOverPostgres(db, c, env).Ok?
    ensures Mirrors(SyncOverPostgres(db, c, env).value.db, t) && Invariant(t, c)
    ensures TipOf(t.bundles) == Some(SyncOverPostgres(db, c, env).value.result.head)
  {
    PostgresCycleIsMemoryCycle(db, s, c, env);
    t := SyncCycle(s, c, env).value.ledger;
    InvariantIsKept(s, c, env);
    SelectedHeadIsTip(s, c, env);
  }

  /** Over every run the tables mirror an in-memory store that satisfies the invariant. */
  lemma {:induction false} TablesAreMirrored(c: Config, envs: seq<Env>) returns (s: Ledger)
    requires c.blockWindow >= 1
    ensures Mirrors(TablesAfter(c, envs), s) && Invariant(s, c)
  {
    if envs == [] {
      s := EMPTY_LEDGER;
    } else {
      var before, env := TablesAfter(c, envs[..|envs| - 1]), envs[|envs| - 1];
      s := TablesAreMirrored(c, envs[..|envs| - 1]);
      if SyncOverPostgres(before, c, env).Ok? {
        s := TablesCycle(before, s, c, env);
      }
    }
  }

  /**
   * Window exactness for the deployed store: over every run of one writer, whatever the endpoint
   * answers, the tables hold exactly the retained window of one linked chain with its references.
   */
  lemma TablesHoldExactWindow(c: Config, envs: seq<Env>)
    requires c.blockWindow >= 1
    ensures var db := TablesAfter(c, envs);
            WindowInTables(db, c.blockWindow) && ChainInTables(db) && ReferencesHold(db) && OneChain(db)
  {
    var s := TablesAreMirrored(c, envs);
    var db := TablesAfter(c, envs);
    MirroredWindow(db, s, c.blockWindow);
    MirrorIsChain(db, s.bundles);
    MirrorHoldsReferences(db, s.bundles);
    MirrorIsOneChain(db, s);
  }

  /** Torn views over the deployed store: a successful cycle leaves the selected head as the tip. */
  lemma TablesEndInSelectedHead(c: Config, envs: seq<Env>, env: Env)
    requires c.blockWindow >= 1 && SyncOverPostgres(TablesAfter(c, envs), c, env).Ok?
    ensures var cycle := SyncOverPostgres(TablesAfter(c, envs), c, env).value;
            Located(env.head) == Ok(cycle.result.head) && TipInTables(cycle.db) == Some(cycle.result.head)
  {
    var s := TablesAreMirrored(c, envs);
    var db := TablesAfter(c, envs);
    var t := TablesCycle(db, s, c, env);
    PostgresCycleIsMemoryCycle(db, s, c, env);
    SelectedHeadIsTip(s, c, env);
    TipMatches(SyncOverPostgres(db, c, env).value.db, t.bundles);
  }
}
