/**
 * The PostgreSQL store of internal/store/postgres_indexer.go over the tables of
 * migrations/000001_initial.up.sql.  The writer lock makes one update one atomic step.
 */
module Postgres {
  import opened Domain
  import opened Chain
  import opened Memory

  const BATCH_QUERY_LIMIT := 1000
  /** One more than the largest value of numeric(78, 0). */
  const TEN_TO_78 := 1_000_000_000_000_000_000_000_000_000_000_000_000_000_000_000_000_000_000_000_000_000_000_000_000_000_000

  datatype BlockRow = BlockRow(
    hash: Hash,
    parentHash: Hash,
    timestamp: uint64,
    gasLimit: uint64,
    gasUsed: uint64,
    baseFee: Option<int>,
    transactionCount: int,
    indexedAt: int)

  datatype TransactionRow = TransactionRow(
    blockNumber: uint64,
    index: uint32,
    kind: uint8,
    nonce: uint64,
    sender: Address,
    recipient: Option<Address>,
    value: Option<int>,
    gasLimit: uint64,
    gasPrice: Option<int>,
    maxFee: Option<int>,
    maxPriorityFee: Option<int>,
    input: seq<byte>)

  datatype EventRow = EventRow(
    transactionHash: Hash,
    transactionIndex: uint32,
    address: Address,
    topics: seq<Hash>,
    data: seq<byte>)

  datatype EventKey = EventKey(blockNumber: uint64, logIndex: uint32)

  datatype SyncRow = SyncRow(tip: Option<ChainTip>, syncedAt: int)

  /** The four tables, each keyed by its primary key. */
  datatype Db = Db(
    blocks: map<uint64, BlockRow>,
    transactions: map<Hash, TransactionRow>,
    events: map<EventKey, EventRow>,
    syncState: map<uint64, SyncRow>)

  const EMPTY_DB := Db(map[], map[], map[], map[])

  function BlockRowOf(b: Block): BlockRow {
    BlockRow(b.hash, b.parentHash, b.timestamp, b.gasLimit, b.gasUsed, b.baseFee, b.transactionCount, b.indexedAt)
  }

  function TransactionRowOf(t: Transaction): TransactionRow {
    TransactionRow(t.blockNumber, t.index, t.kind, t.nonce, t.sender, t.recipient, t.value,
                   t.gasLimit, t.gasPrice, t.maxFee, t.maxPriorityFee, t.input)
  }

  function EventRowOf(e: Event): EventRow {
    EventRow(e.transactionHash, e.transactionIndex, e.address, e.topics, e.data)
  }

  function KeyOf(e: Event): EventKey {
    EventKey(e.blockNumber, e.logIndex)
  }

  datatype Statement =
    | InsertBlock(number: uint64, block: BlockRow)
    | InsertTransaction(hash: Hash, transaction: TransactionRow)
    | InsertEvent(key: EventKey, event: EventRow)

  predicate IsNumeric(v: Option<int>) {
    v.Some? ==> 0 <= v.value < TEN_TO_78
  }

  /** Primary keys, unique columns, foreign keys and checks of the row a statement inserts. */
  predicate Permits(db: Db, s: Statement) {
    match s
    case InsertBlock(n, b) =>
      && n !in db.blocks
      && (forall k | k in db.blocks :: db.blocks[k].hash != b.hash)
      && IsNumeric(b.baseFee)
      && b.transactionCount >= 0
    case InsertTransaction(h, t) =>
      && h !in db.transactions
      && t.blockNumber in db.blocks
      && (forall k | k in db.transactions ::
            db.transactions[k].blockNumber != t.blockNumber || db.transactions[k].index != t.index)
      && t.value.Some? && IsNumeric(t.value)
      && IsNumeric(t.gasPrice) && IsNumeric(t.maxFee) && IsNumeric(t.maxPriorityFee)
    case InsertEvent(k, e) =>
      && k !in db.events
      && k.blockNumber in db.blocks
      && e.transactionHash in db.transactions
      && |e.topics| <= 4
  }

  function Insert(db: Db, s: Statement): Db {
    match s
    case InsertBlock(n, b) => db.(blocks := db.blocks[n := b])
    case InsertTransaction(h, t) => db.(transactions := db.transactions[h := t])
    case InsertEvent(k, e) => db.(events := db.events[k := e])
  }

  function Exec(db: Db, s: Statement): Option<Db> {
    if Permits(db, s) then Some(Insert(db, s)) else None
  }

  /** Statements in order; the first that violates a constraint fails them all. */
  function ExecAll(db: Db, ss: seq<Statement>): Option<Db> {
    if ss == [] then Some(db) else
    var before := ExecAll(db, ss[..|ss| - 1]);
    if before.None? then None else Exec(before.value, ss[|ss| - 1])
  }

  lemma {:induction false} ExecConcat(db: Db, a: seq<Statement>, b: seq<Statement>)
    ensures ExecAll(db, a + b) == if ExecAll(db, a).None? then None else ExecAll(ExecAll(db, a).value, b)
  {
    if b == [] {
      assert a + b == a;
    } else {
      ExecConcat(db, a, b[..|b| - 1]);
      assert (a + b)[..|a + b| - 1] == a + b[..|b| - 1];
    }
  }

  lemma ExecLast(db: Db, ss: seq<Statement>, k: nat)
    requires 0 < k <= |ss|
    ensures ExecAll(db, ss[..k]) ==
            if ExecAll(db, ss[..k - 1]).None? then None else Exec(ExecAll(db, ss[..k - 1]).value, ss[k - 1])
  {
    assert ss[..k][..k - 1] == ss[..k - 1];
  }

  function TransactionStatements(ts: seq<Transaction>): (ss: seq<Statement>) {
    seq(|ts|, i requires 0 <= i < |ts| => InsertTransaction(ts[i].hash, TransactionRowOf(ts[i])))
  }

  function EventStatements(es: seq<Event>): (ss: seq<Statement>) {
    seq(|es|, i requires 0 <= i < |es| => InsertEvent(KeyOf(es[i]), EventRowOf(es[i])))
  }

  function BundleStatements(b: Bundle): (ss: seq<Statement>) {
    [InsertBlock(b.block.number, BlockRowOf(b.block))] + TransactionStatements(b.transactions)
        + EventStatements(b.events)
  }

  /** Block, transactions and events of each bundle in turn. */
  function Statements(bs: seq<Bundle>): (ss: seq<Statement>) {
    if bs == [] then [] else Statements(bs[..|bs| - 1]) + BundleStatements(bs[|bs| - 1])
  }

  predicate InUint256(v: Option<int>, required: bool) {
    (v.None? ==> !required) && (v.Some? ==> 0 <= v.value < TWO_TO_256)
  }

  predicate BlockInRange(b: Block) {
    && b.number <= MAX_INT64 && b.timestamp <= MAX_INT64 && b.gasLimit <= MAX_INT64 && b.gasUsed <= MAX_INT64
    && b.transactionCount <= MAX_INT32
    && InUint256(b.baseFee, false)
  }

  predicate TransactionInRange(t: Transaction) {
    && t.blockNumber <= MAX_INT64 && t.nonce <= MAX_INT64 && t.gasLimit <= MAX_INT64
    && t.index <= MAX_INT32
    && InUint256(t.value, true) && InUint256(t.gasPrice, false)
    && InUint256(t.maxFee, false) && InUint256(t.maxPriorityFee, false)
  }

  predicate EventInRange(e: Event) {
    e.transactionIndex <= MAX_INT32 && e.logIndex <= MAX_INT32
  }

  predicate BundleInRange(b: Bundle) {
    && BlockInRange(b.block)
    && (forall i | 0 <= i < |b.transactions| :: TransactionInRange(b.transactions[i]))
    && (forall i | 0 <= i < |b.events| :: EventInRange(b.events[i]))
  }

  predicate HeaderInRange(u: CanonicalUpdate) {
    && 0 < u.chainID <= MAX_INT64
    && u.retainFrom <= u.replaceFrom <= MAX_INT64
  }

  /** What is checked before the transaction begins; only the new blocks are looked at. */
  predicate PreValid(u: CanonicalUpdate) {
    && HeaderInRange(u)
    && ValidReplacement(u)
    && ValidChain(ByNumber(u.blocks))
    && (forall i | 0 <= i < |u.blocks| :: BundleInRange(u.blocks[i]))
  }

  /** DELETE FROM blocks, with the cascades to transactions and to events through either parent. */
  function Delete(db: Db, u: CanonicalUpdate): (r: Db) {
    var blocks := map n | n in db.blocks && u.retainFrom <= n < u.replaceFrom :: db.blocks[n];
    var transactions := map h | h in db.transactions && db.transactions[h].blockNumber in blocks :: db.transactions[h];
    var events :=
      map k | k in db.events && k.blockNumber in blocks && db.events[k].transactionHash in transactions :: db.events[k];
    Db(blocks, transactions, events, db.syncState)
  }

  predicate SameChain(db: Db, chainID: uint64) {
    forall k | k in db.syncState :: k == chainID
  }

  predicate ExtendsParent(db: Db, u: CanonicalUpdate) {
    |u.blocks| == 0 || u.replaceFrom == u.retainFrom ||
    (u.replaceFrom - 1 in db.blocks && u.blocks[0].block.parentHash == db.blocks[u.replaceFrom - 1].hash)
  }

  predicate IsTip(db: Db, tip: Option<ChainTip>) {
    match tip
    case None => db.blocks == map[]
    case Some(t) =>
      && t.number in db.blocks && db.blocks[t.number].hash == t.hash
      && forall n | n in db.blocks :: n <= t.number
  }

  ghost function TipInTables(db: Db): (tip: Option<ChainTip>)
    ensures IsTip(db, tip)
  {
    if db.blocks == map[] then None else
    assert exists n :: n in db.blocks && forall k | k in db.blocks :: k <= n by {
      var top := HighestOf(db.blocks.Keys);
      assert top in db.blocks;
    }
    var n :| n in db.blocks && forall k | k in db.blocks :: k <= n;
    Some(ChainTip(n, db.blocks[n].hash))
  }

  lemma TipIsOnly(db: Db, a: Option<ChainTip>, b: Option<ChainTip>)
    requires IsTip(db, a) && IsTip(db, b)
    ensures a == b
  {
  }

  /** The locked transaction: the tables after a commit, or the error after which it is rolled back. */
  ghost function Transact(db: Db, u: CanonicalUpdate): (r: Result<Db>) {
    if !PreValid(u) || !SameChain(db, u.chainID) then Err(InvalidCanonicalUpdate) else
    var kept := Delete(db, u);
    if !ExtendsParent(kept, u) then Err(InvalidCanonicalUpdate) else
    var filled := ExecAll(kept, Statements(u.blocks));
    if filled.None? then Err(Database) else
    var row := SyncRow(TipInTables(filled.value), u.syncedAt);
    Ok(filled.value.(syncState := filled.value.syncState[u.chainID := row]))
  }
}
