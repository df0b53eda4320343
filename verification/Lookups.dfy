/** A transaction with its events, by hash: internal/store/memory.go and internal/store/postgres_transactions.go. */
module Lookups {
  import opened Domain
  import opened Chain
  import opened Sorting
  import opened Memory
  import opened EventPages
  import opened Postgres
  import opened PostgresRefinement
  import opened PostgresSafety
  import opened PostgresPages

  datatype TransactionResult = TransactionResult(transaction: Transaction, events: seq<Event>)

  /** `s` lists all events of the chain that the transaction emitted, by log index. */
  ghost predicate ListsLogs(m: Bundles, hash: Hash, s: seq<Event>) {
    && StrictlyAscending(s, ByLogIndex)
    && (forall e :: e in s <==> Stored(m, e) && e.transactionHash == hash)
  }

  /** The answer to a lookup: a stored transaction with that hash and all its events in the whole chain. */
  ghost predicate IsLookup(m: Bundles, hash: Hash, r: TransactionResult) {
    && (exists n :: n in m && r.transaction in m[n].transactions)
    && r.transaction.hash == hash
    && ListsLogs(m, hash, r.events)
  }

  lemma TransactionHasOneBlock(m: Bundles, n: uint64, k: uint64, hash: Hash)
    requires UniqueTransactions(m) && n in m && k in m && HasTransaction(m[n], hash) && HasTransaction(m[k], hash)
    ensures n == k
  {
    assert hash in TxHashes(m[n]) && hash in TxHashes(m[k]);
  }

  lemma TransactionHasOnePlace(b: Bundle, x: Transaction, y: Transaction)
    requires DistinctTransactions(b.transactions) && x in b.transactions && y in b.transactions && x.hash == y.hash
    ensures x == y
  {
    var i :| 0 <= i < |b.transactions| && b.transactions[i] == x;
    var j :| 0 <= j < |b.transactions| && b.transactions[j] == y;
    assert i == j;
  }

  /** The order in which blocks are visited does not matter: a lookup has one answer at most. */
  lemma LookupIsUnique(m: Bundles, hash: Hash, a: TransactionResult, b: TransactionResult)
    requires ValidChain(m) && IsLookup(m, hash, a) && IsLookup(m, hash, b)
    ensures a == b
  {
    var n :| n in m && a.transaction in m[n].transactions;
    var k :| k in m && b.transaction in m[k].transactions;
    assert HasTransaction(m[n], hash) && HasTransaction(m[k], hash);
    TransactionHasOneBlock(m, n, k, hash);
    assert ValidBundle(m[n]);
    TransactionHasOnePlace(m[n], a.transaction, b.transaction);
    ListingIsUnique(a.events, b.events, ByLogIndex);
  }

  /** The events of a transaction are all in its block. */
  lemma LogsAreInBlock(m: Bundles, n: uint64, hash: Hash, e: Event)
    requires Placed(m) && UniqueTransactions(m) && n in m && HasTransaction(m[n], hash)
    ensures Stored(m, e) && e.transactionHash == hash <==> e in m[n].events && e.transactionHash == hash
  {
    if Stored(m, e) && e.transactionHash == hash {
      var k :| k in m && e in m[k].events;
      assert HasTransaction(m[k], e.transactionHash);
      TransactionHasOneBlock(m, n, k, hash);
    }
  }

  method SelectLogs(b: Bundle, hash: Hash) returns (events: seq<Event>)
    requires DistinctLogs(b.events)
    ensures StrictlyAscending(events, ByLogIndex)
    ensures forall e :: e in events <==> e in b.events && e.transactionHash == hash
  {
    var found: seq<Event> := [];
    var index := 0;
    while index < |b.events|
      invariant 0 <= index <= |b.events|
      invariant DistinctKeys(found, ByLogIndex)
      invariant forall e :: e in found <==> e in b.events[..index] && e.transactionHash == hash
    {
      var e := b.events[index];
      assert b.events[..index + 1] == b.events[..index] + [e];
      if e.transactionHash == hash {
        assert forall x | x in b.events[..index] :: x.logIndex != e.logIndex;
        found := found + [e];
      }
      index := index + 1;
    }
    assert b.events[..index] == b.events;
    events := SortBy(found, ByLogIndex);
    SortIsAscending(found, ByLogIndex);
    SameElements(events, found);
  }

  method FindTransaction(b: Bundle, hash: Hash) returns (found: Option<Transaction>)
    ensures found == None <==> !HasTransaction(b, hash)
    ensures found.Some? ==> found.value in b.transactions && found.value.hash == hash
  {
    var index := 0;
    while index < |b.transactions|
      invariant 0 <= index <= |b.transactions|
      invariant forall i | 0 <= i < index :: b.transactions[i].hash != hash
    {
      if b.transactions[index].hash == hash {
        return Some(b.transactions[index]);
      }
      index := index + 1;
    }
    return None;
  }

  lemma DistinctLogsOf(m: Bundles, n: uint64)
    requires Wellformed(m) && n in m
    ensures DistinctLogs(m[n].events)
  {
    assert ValidBundle(m[n]);
  }

  lemma LookupFound(m: Bundles, n: uint64, hash: Hash, r: TransactionResult)
    requires ValidChain(m) && n in m && r.transaction in m[n].transactions && r.transaction.hash == hash
    requires StrictlyAscending(r.events, ByLogIndex)
    requires forall e :: e in r.events <==> e in m[n].events && e.transactionHash == hash
    ensures IsLookup(m, hash, r)
  {
    assert HasTransaction(m[n], hash);
    WellformedIsPlaced(m);
    forall e ensures e in r.events <==> Stored(m, e) && e.transactionHash == hash {
      LogsAreInBlock(m, n, hash, e);
    }
  }

  /** Visits the blocks in any order. */
  method TransactionByHash(store: Store, cancelled: bool, hash: Hash) returns (r: Result<TransactionResult>)
    requires store.Valid()
    ensures cancelled ==> r == Err(Cancelled)
    ensures !cancelled && !HoldsTransaction(store.bundles, hash) ==> r == Err(NotFound)
    ensures !cancelled && HoldsTransaction(store.bundles, hash) ==> r.Ok? && IsLookup(store.bundles, hash, r.value)
  {
    if cancelled {
      return Err(Cancelled);
    }
    var rest := store.bundles.Keys;
    while rest != {}
      invariant rest <= store.bundles.Keys
      invariant forall n | n in store.bundles && n !in rest :: !HasTransaction(store.bundles[n], hash)
      decreases rest
    {
      var n :| n in rest;
      var found := FindTransaction(store.bundles[n], hash);
      if found.Some? {
        assert HasTransaction(store.bundles[n], hash);
        DistinctLogsOf(store.bundles, n);
        var events := SelectLogs(store.bundles[n], hash);
        LookupFound(store.bundles, n, hash, TransactionResult(found.value, events));
        return Ok(TransactionResult(found.value, events));
      }
      rest := rest - {n};
    }
    return Err(NotFound);
  }

  /** The row of a transaction joined with the hash of its block. */
  function JoinedTransaction(db: Db, hash: Hash): Transaction
    requires hash in db.transactions && db.transactions[hash].blockNumber in db.blocks
  {
    var row := db.transactions[hash];
    Transaction(hash, row.blockNumber, db.blocks[row.blockNumber].hash, row.index, row.kind, row.nonce, row.sender,
                row.recipient, row.value, row.gasLimit, row.gasPrice, row.maxFee, row.maxPriorityFee, row.input)
  }

  ghost function LogRows(db: Db, hash: Hash): (es: set<Event>) {
    set k | k in db.events && k.blockNumber in db.blocks && db.events[k].transactionHash == hash :: JoinedEvent(db, k)
  }

  /** What the two queries of a lookup return from one snapshot of the tables. */
  ghost function LookupInTables(db: Db, hash: Hash): (r: Result<TransactionResult>) {
    if hash in db.transactions && db.transactions[hash].blockNumber in db.blocks
    then Ok(TransactionResult(JoinedTransaction(db, hash), SortBy(Enumerate(LogRows(db, hash)), ByLogIndex)))
    else Err(NotFound)
  }

  /** Each transaction names its block by number and hash. */
  ghost predicate TransactionsPlaced(m: Bundles) {
    forall n, t | n in m && t in m[n].transactions :: t.blockNumber == n && t.blockHash == m[n].block.hash
  }

  lemma WellformedPlacesTransactions(m: Bundles)
    requires Wellformed(m)
    ensures TransactionsPlaced(m)
  {
    forall n, t | n in m && t in m[n].transactions ensures t.blockNumber == n && t.blockHash == m[n].block.hash {
      assert ValidBundle(m[n]);
      var i :| 0 <= i < |m[n].transactions| && m[n].transactions[i] == t;
      assert TransactionFits(m[n], i);
    }
  }

  lemma JoinRestoresTransaction(db: Db, m: Bundles, n: uint64, t: Transaction)
    requires BlocksMatch(db, m) && TransactionsMatch(db, m) && TransactionsPlaced(m) && n in m && t in m[n].transactions
    ensures t.hash in db.transactions && db.transactions[t.hash].blockNumber in db.blocks
    ensures JoinedTransaction(db, t.hash) == t
  {
    assert n in db.blocks.Keys;
    assert db.transactions[t.hash] == TransactionRowOf(t);
  }

  lemma LogRowsAreLogs(db: Db, m: Bundles, hash: Hash, e: Event)
    requires BlocksMatch(db, m) && EventsMatch(db, m) && EventsPlaced(m)
    ensures e in LogRows(db, hash) <==> Stored(m, e) && e.transactionHash == hash
  {
    if e in LogRows(db, hash) {
      var k :| k in db.events && k.blockNumber in db.blocks && db.events[k].transactionHash == hash
          && e == JoinedEvent(db, k);
      RowIsStored(db, m, k);
    }
    if Stored(m, e) && e.transactionHash == hash {
      var n :| n in m && e in m[n].events;
      JoinRestoresEvent(db, m, n, e);
      assert e == JoinedEvent(db, KeyOf(e));
    }
  }

  lemma LogRowsAreDistinct(db: Db, hash: Hash)
    ensures DistinctPositions(LogRows(db, hash))
  {
    forall a, b | a in LogRows(db, hash) && b in LogRows(db, hash) && Position(a) == Position(b) ensures a == b {
      BeforeIsPosition(a, b);
    }
  }

  lemma OneBlockOrders(s: seq<Event>, n: uint64)
    requires DistinctKeys(s, Newest) && forall e | e in s :: e.blockNumber == n
    ensures DistinctKeys(s, ByLogIndex)
  {
    forall i, j | 0 <= i < j < |s| ensures ByLogIndex(s[i]) != ByLogIndex(s[j]) {
      assert s[i] in s && s[j] in s;
      BeforeIsPosition(s[i], s[j]);
      assert Newest(s[i]) != Newest(s[j]);
    }
  }

  /** Ordering the selected rows of one block lists the logs. */
  lemma SortedRowsListLogs(db: Db, m: Bundles, hash: Hash, n: uint64)
    requires forall e :: e in LogRows(db, hash) <==> Stored(m, e) && e.transactionHash == hash
    requires forall e | e in LogRows(db, hash) :: e.blockNumber == n
    ensures ListsLogs(m, hash, SortBy(Enumerate(LogRows(db, hash)), ByLogIndex))
  {
    var s := Enumerate(LogRows(db, hash));
    LogRowsAreDistinct(db, hash);
    OneBlockOrders(s, n);
    SortIsAscending(s, ByLogIndex);
    SameElements(SortBy(s, ByLogIndex), s);
  }

  lemma TableLogsAreLogs(db: Db, m: Bundles, n: uint64, hash: Hash)
    requires Represents(db, m) && ValidChain(m) && n in m && HasTransaction(m[n], hash)
    ensures ListsLogs(m, hash, SortBy(Enumerate(LogRows(db, hash)), ByLogIndex))
  {
    WellformedPlacesEvents(m);
    WellformedIsPlaced(m);
    forall e ensures e in LogRows(db, hash) <==> Stored(m, e) && e.transactionHash == hash {
      LogRowsAreLogs(db, m, hash, e);
    }
    forall e | e in LogRows(db, hash) ensures e.blockNumber == n {
      LogsAreInBlock(m, n, hash, e);
    }
    SortedRowsListLogs(db, m, hash, n);
  }

  /** Both stores answer a lookup alike: with LookupIsUnique, with the same transaction and events. */
  lemma LookupsAgree(db: Db, s: Ledger, hash: Hash)
    requires Mirrors(db, s)
    ensures var r := LookupInTables(db, hash);
            if HoldsTransaction(s.bundles, hash) then r.Ok? && IsLookup(s.bundles, hash, r.value)
            else r == Err(NotFound)
  {
    var m := s.bundles;
    if HoldsTransaction(m, hash) {
      var n :| n in m && HasTransaction(m[n], hash);
      var t :| t in m[n].transactions && t.hash == hash;
      WellformedPlacesTransactions(m);
      JoinRestoresTransaction(db, m, n, t);
      TableLogsAreLogs(db, m, n, hash);
    }
  }
}
