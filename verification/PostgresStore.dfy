/** The steps of one update as the PostgreSQL store runs them. */
module PostgresStore {
  import opened Domain
  import opened Chain
  import opened Memory
  import opened Postgres

  /** The arguments of a statement fit the signed columns they are narrowed to. */
  predicate ArgumentsFit(s: Statement) {
    match s
    case InsertBlock(n, b) =>
      && n <= MAX_INT64 && b.timestamp <= MAX_INT64 && b.gasLimit <= MAX_INT64 && b.gasUsed <= MAX_INT64
      && 0 <= b.transactionCount <= MAX_INT32
    case InsertTransaction(_, t) =>
      t.blockNumber <= MAX_INT64 && t.index <= MAX_INT32 && t.nonce <= MAX_INT64 && t.gasLimit <= MAX_INT64
    case InsertEvent(k, e) =>
      k.blockNumber <= MAX_INT64 && e.transactionIndex <= MAX_INT32 && k.logIndex <= MAX_INT32
  }

  lemma BundleArgumentsFit(b: Bundle, s: Statement)
    requires ValidBundle(b) && BundleInRange(b) && s in BundleStatements(b)
    ensures ArgumentsFit(s)
  {
    var ts, es := TransactionStatements(b.transactions), EventStatements(b.events);
    if s in ts {
      var i :| 0 <= i < |ts| && ts[i] == s;
      assert TransactionInRange(b.transactions[i]);
    } else if s in es {
      var i :| 0 <= i < |es| && es[i] == s;
      assert EventInRange(b.events[i]) && EventFits(b, b.events[i]);
    }
  }

  lemma {:induction false} StatementOrigin(bs: seq<Bundle>, s: Statement) returns (i: nat)
    requires s in Statements(bs)
    ensures i < |bs| && s in BundleStatements(bs[i])
  {
    i := |bs| - 1;
    if s !in BundleStatements(bs[i]) {
      i := StatementOrigin(bs[..i], s);
    }
  }

  /** After the validation no narrowing conversion of the update can panic. */
  lemma NarrowingIsSafe(u: CanonicalUpdate)
    requires PreValid(u)
    ensures u.chainID <= MAX_INT64 && u.retainFrom <= MAX_INT64 && u.replaceFrom <= MAX_INT64
    ensures |u.blocks| > 0 && u.replaceFrom != u.retainFrom ==> 0 <= u.replaceFrom - 1
    ensures forall s | s in Statements(u.blocks) :: ArgumentsFit(s)
  {
    forall s | s in Statements(u.blocks) ensures ArgumentsFit(s) {
      var i := StatementOrigin(u.blocks, s);
      ByNumberIsExact(u.blocks, u.replaceFrom);
      var n := u.blocks[i].block.number;
      assert n in ByNumber(u.blocks) && ByNumber(u.blocks)[n] == u.blocks[i];
      BundleArgumentsFit(u.blocks[i], s);
    }
  }

  function Flatten(batches: seq<seq<Statement>>): (ss: seq<Statement>) {
    if batches == [] then [] else Flatten(batches[..|batches| - 1]) + batches[|batches| - 1]
  }

  /** A batch under construction, the batches sent before it and the tables after those. */
  datatype Sender = Sender(db: Db, batch: seq<Statement>, sent: seq<seq<Statement>>)

  predicate BatchSizes(sent: seq<seq<Statement>>) {
    forall i | 0 <= i < |sent| :: 1 <= |sent[i]| <= BATCH_QUERY_LIMIT
  }

  /** `queued` is what was queued so far; all of it but the current batch was sent and succeeded. */
  ghost predicate Sending(start: Db, s: Sender, queued: seq<Statement>) {
    && Flatten(s.sent) + s.batch == queued
    && |s.batch| < BATCH_QUERY_LIMIT
    && BatchSizes(s.sent)
    && ExecAll(start, Flatten(s.sent)) == Some(s.db)
  }

  lemma FlattenSnoc(sent: seq<seq<Statement>>, batch: seq<Statement>)
    ensures Flatten(sent + [batch]) == Flatten(sent) + batch
  {
    assert (sent + [batch])[..|sent|] == sent;
  }

  lemma FailedPrefix(db: Db, a: seq<Statement>, b: seq<Statement>)
    requires ExecAll(db, a).None?
    ensures ExecAll(db, a + b).None?
  {
    ExecConcat(db, a, b);
  }

  /** Queues one statement and sends the batch when it is full. */
  method Queue(ghost start: Db, s: Sender, statement: Statement, ghost queued: seq<Statement>)
    returns (ok: bool, t: Sender)
    requires Sending(start, s, queued)
    ensures ok ==> Sending(start, t, queued + [statement])
    ensures !ok ==> ExecAll(start, queued + [statement]).None?
    ensures !ok ==> Flatten(t.sent) == queued + [statement] && BatchSizes(t.sent)
  {
    var batch := s.batch + [statement];
    assert Flatten(s.sent) + batch == queued + [statement];
    if |batch| < BATCH_QUERY_LIMIT {
      return true, Sender(s.db, batch, s.sent);
    }
    ExecConcat(start, Flatten(s.sent), batch);
    FlattenSnoc(s.sent, batch);
    var r := ExecAll(s.db, batch);
    if r == None {
      return false, Sender(s.db, [], s.sent + [batch]);
    }
    assert Flatten(s.sent + [batch]) + [] == queued + [statement];
    return true, Sender(r.value, [], s.sent + [batch]);
  }

  method QueueAll(ghost start: Db, s: Sender, statements: seq<Statement>, ghost queued: seq<Statement>)
    returns (ok: bool, t: Sender)
    requires Sending(start, s, queued)
    ensures ok ==> Sending(start, t, queued + statements)
    ensures !ok ==> ExecAll(start, queued + statements).None?
    ensures !ok ==> Flatten(t.sent) <= queued + statements && BatchSizes(t.sent)
  {
    t := s;
    var i := 0;
    assert queued + statements[..0] == queued;
    while i < |statements|
      invariant 0 <= i <= |statements|
      invariant Sending(start, t, queued + statements[..i])
    {
      ok, t := Queue(start, t, statements[i], queued + statements[..i]);
      assert queued + statements[..i] + [statements[i]] == queued + statements[..i + 1];
      if !ok {
        FailedPrefix(start, queued + statements[..i + 1], statements[i + 1..]);
        assert queued + statements[..i + 1] + statements[i + 1..] == queued + statements;
        return false, t;
      }
      i := i + 1;
    }
    assert statements[..i] == statements;
    ok := true;
  }

  lemma {:induction false} StatementsSplit(bs: seq<Bundle>, i: nat) returns (rest: seq<Statement>)
    requires i <= |bs|
    ensures Statements(bs) == Statements(bs[..i]) + rest
    decreases |bs|
  {
    if i == |bs| {
      assert bs[..i] == bs;
      rest := [];
    } else {
      var init := bs[..|bs| - 1];
      var r := StatementsSplit(init, i);
      assert init[..i] == bs[..i];
      rest := r + BundleStatements(bs[|bs| - 1]);
    }
  }

  /**
   * Inserts all bundles in batches.  The result is that of running the statements one by one; the
   * batches hold between 1 and 1000 statements each and together are exactly the block, transaction
   * and event statements in order, so a parent row always precedes its children.
   */
  method InsertCanonicalBundles(db: Db, bundles: seq<Bundle>) returns (r: Option<Db>, sent: seq<seq<Statement>>)
    ensures r == ExecAll(db, Statements(bundles))
    ensures BatchSizes(sent)
    ensures Flatten(sent) <= Statements(bundles)
    ensures r.Some? ==> Flatten(sent) == Statements(bundles)
  {
    var s := Sender(db, [], []);
    assert bundles[..0] == [];
    var i := 0;
    while i < |bundles|
      invariant 0 <= i <= |bundles|
      invariant Sending(db, s, Statements(bundles[..i]))
    {
      var ok;
      assert bundles[..i + 1][..i] == bundles[..i];
      ok, s := QueueAll(db, s, BundleStatements(bundles[i]), Statements(bundles[..i]));
      if !ok {
        ghost var rest := StatementsSplit(bundles, i + 1);
        FailedPrefix(db, Statements(bundles[..i + 1]), rest);
        return None, s.sent;
      }
      i := i + 1;
    }
    assert bundles[..i] == bundles;
    ExecConcat(db, Flatten(s.sent), s.batch);
    if |s.batch| == 0 {
      assert Flatten(s.sent) + s.batch == Flatten(s.sent);
      return Some(s.db), s.sent;
    }
    FlattenSnoc(s.sent, s.batch);
    return ExecAll(s.db, s.batch), s.sent + [s.batch];
  }

  method ValidateBundleRange(b: Bundle) returns (ok: bool)
    ensures ok <==> BundleInRange(b)
  {
    if !BlockInRange(b.block) {
      return false;
    }
    var i := 0;
    while i < |b.transactions|
      invariant 0 <= i <= |b.transactions|
      invariant forall j | 0 <= j < i :: TransactionInRange(b.transactions[j])
    {
      if !TransactionInRange(b.transactions[i]) {
        return false;
      }
      i := i + 1;
    }
    i := 0;
    while i < |b.events|
      invariant 0 <= i <= |b.events|
      invariant forall j | 0 <= j < i :: EventInRange(b.events[j])
    {
      if b.events[i].transactionIndex > MAX_INT32 || b.events[i].logIndex > MAX_INT32 {
        assert !EventInRange(b.events[i]);
        return false;
      }
      i := i + 1;
    }
    return true;
  }

  method ValidateRanges(blocks: seq<Bundle>) returns (ok: bool)
    ensures ok <==> forall i | 0 <= i < |blocks| :: BundleInRange(blocks[i])
  {
    var i := 0;
    while i < |blocks|
      invariant 0 <= i <= |blocks|
      invariant forall j | 0 <= j < i :: BundleInRange(blocks[j])
    {
      var fits := ValidateBundleRange(blocks[i]);
      if !fits {
        assert !BundleInRange(blocks[i]);
        return false;
      }
      i := i + 1;
    }
    return true;
  }

  method ValidatePostgresUpdate(u: CanonicalUpdate) returns (ok: bool)
    ensures ok <==> PreValid(u)
  {
    if u.chainID == 0 || u.chainID > MAX_INT64 || u.retainFrom > u.replaceFrom
       || u.retainFrom > MAX_INT64 || u.replaceFrom > MAX_INT64
    {
      return false;
    }
    ok := ValidateReplacement(u);
    if !ok {
      return false;
    }
    var bundles: Bundles := map[];
    var i := 0;
    while i < |u.blocks|
      invariant 0 <= i <= |u.blocks|
      invariant bundles == ByNumber(u.blocks[..i])
    {
      assert u.blocks[..i + 1][..i] == u.blocks[..i];
      bundles := bundles[u.blocks[i].block.number := u.blocks[i]];
      i := i + 1;
    }
    assert u.blocks[..i] == u.blocks;
    ok := ValidateCanonicalBundles(bundles);
    if !ok {
      return false;
    }
    ok := ValidateRanges(u.blocks);
  }

  method CanonicalTipInTransaction(db: Db) returns (tip: Option<ChainTip>)
    ensures tip == TipInTables(db)
  {
    var highest: uint64 := 0;
    var found := false;
    var rest := db.blocks.Keys;
    while rest != {}
      invariant rest <= db.blocks.Keys
      invariant found <==> rest != db.blocks.Keys
      invariant found ==> highest in db.blocks && forall n | n in db.blocks && n !in rest :: n <= highest
      decreases rest
    {
      var n :| n in rest;
      if !found || n > highest {
        highest, found := n, true;
      }
      rest := rest - {n};
    }
    assert db.blocks == map[] <==> db.blocks.Keys == {};
    tip := if found then Some(ChainTip(highest, db.blocks[highest].hash)) else None;
    TipIsOnly(db, tip, TipInTables(db));
  }

  class Store {
    var db: Db

    constructor ()
      ensures db == EMPTY_DB
    {
      db := EMPTY_DB;
    }

    /** One transaction under the writer lock: commits all of the update or leaves the tables alone. */
    method ApplyCanonicalUpdate(u: CanonicalUpdate) returns (r: Result<()>)
      modifies this
      ensures match Transact(old(db), u)
              case Ok(committed) => r == Ok(()) && db == committed
              case Err(e) => r == Err(e) && db == old(db)
    {
      var ok := ValidatePostgresUpdate(u);
      if !ok || !SameChain(db, u.chainID) {
        return Err(InvalidCanonicalUpdate);
      }
      var kept := Delete(db, u);
      if !ExtendsParent(kept, u) {
        return Err(InvalidCanonicalUpdate);
      }
      var filled, sent := InsertCanonicalBundles(kept, u.blocks);
      if filled == None {
        return Err(Database);
      }
      var tip := CanonicalTipInTransaction(filled.value);
      db := filled.value.(syncState := filled.value.syncState[u.chainID := SyncRow(tip, u.syncedAt)]);
      return Ok(());
    }
  }
}
