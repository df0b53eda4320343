/** Building one block bundle from RPC answers: internal/indexer/fetcher.go. */
module Fetcher {
  import opened Domain
  import opened Chain
  import opened Sorting

  const LEGACY_TX_TYPE := 0
  const ACCESS_LIST_TX_TYPE := 1

  /** A transaction as the node returns it; `sender` is None when no sender can be recovered. */
  datatype EthTransaction = EthTransaction(
    hash: Hash,
    protected: bool,
    chainID: int,
    sender: Option<Address>,
    kind: uint8,
    nonce: uint64,
    to: Option<Address>,
    value: int,
    gas: uint64,
    gasPrice: int,
    gasFeeCap: int,
    gasTipCap: int,
    data: seq<byte>)

  datatype EthBlock = EthBlock(
    number: Option<int>,
    hash: Hash,
    parentHash: Hash,
    time: uint64,
    gasLimit: uint64,
    gasUsed: uint64,
    baseFee: Option<int>,
    transactions: seq<Option<EthTransaction>>)

  datatype EthLog = EthLog(
    removed: bool,
    blockNumber: uint64,
    blockHash: Hash,
    txHash: Hash,
    txIndex: uint64,
    index: uint64,
    address: Address,
    topics: seq<Hash>,
    data: seq<byte>)

  datatype BlockAnswer = BlockFailed | BlockMissing | BlockFound(block: EthBlock)

  datatype LogsAnswer = LogsFailed | LogsFound(logs: seq<EthLog>)

  function MapTransaction(t: EthTransaction, index: uint32, number: uint64, blockHash: Hash): (r: Transaction)
    requires t.sender.Some?
  {
    var legacy := t.kind == LEGACY_TX_TYPE || t.kind == ACCESS_LIST_TX_TYPE;
    Transaction(
      t.hash, number, blockHash, index, t.kind, t.nonce, t.sender.value, t.to, Some(t.value), t.gas,
      if legacy then Some(t.gasPrice) else None,
      if legacy then None else Some(t.gasFeeCap),
      if legacy then None else Some(t.gasTipCap),
      t.data)
  }

  predicate TransactionAcceptable(chainID: uint64, t: Option<EthTransaction>) {
    t.Some? && (t.value.protected ==> t.value.chainID == chainID) && t.value.sender.Some?
  }

  predicate TransactionsAcceptable(chainID: uint64, ts: seq<Option<EthTransaction>>) {
    && |ts| <= MAX_UINT32
    && (forall i | 0 <= i < |ts| :: TransactionAcceptable(chainID, ts[i]))
    && (forall i, j | 0 <= i < j < |ts| :: ts[i].value.hash != ts[j].value.hash)
  }

  function MappedTransactions(chainID: uint64, ts: seq<Option<EthTransaction>>, number: uint64, blockHash: Hash)
    : (r: seq<Transaction>)
    requires TransactionsAcceptable(chainID, ts)
  {
    seq(|ts|, i requires 0 <= i < |ts| => MapTransaction(ts[i].value, i, number, blockHash))
  }

  method MapTransactions(chainID: uint64, ts: seq<Option<EthTransaction>>, number: uint64, blockHash: Hash)
    returns (ok: bool, transactions: seq<Transaction>, positions: map<Hash, uint32>)
    ensures ok <==> TransactionsAcceptable(chainID, ts)
    ensures ok ==> transactions == MappedTransactions(chainID, ts, number, blockHash)
    ensures ok ==> Indexes(positions, transactions)
  {
    transactions, positions := [], map[];
    if |ts| > MAX_UINT32 {
      return false, transactions, positions;
    }
    var index := 0;
    while index < |ts|
      invariant 0 <= index <= |ts|
      invariant forall i | 0 <= i < index :: TransactionAcceptable(chainID, ts[i])
      invariant |transactions| == index
      invariant forall i | 0 <= i < index :: transactions[i] == MapTransaction(ts[i].value, i, number, blockHash)
      invariant Indexes(positions, transactions)
    {
      if ts[index] == None {
        assert !TransactionAcceptable(chainID, ts[index]);
        return false, transactions, positions;
      }
      var t := ts[index].value;
      if (t.protected && t.chainID != chainID) || t.sender == None {
        assert !TransactionAcceptable(chainID, ts[index]);
        return false, transactions, positions;
      }
      if t.hash in positions {
        assert ts[positions[t.hash]].value.hash == ts[index].value.hash;
        return false, transactions, positions;
      }
      positions := positions[t.hash := index];
      transactions := transactions + [MapTransaction(t, index, number, blockHash)];
      index := index + 1;
    }
    assert forall i, j | 0 <= i < j < |ts| :: transactions[i].hash != transactions[j].hash;
    ok := true;
  }

  function MapLog(l: EthLog, number: uint64, blockHash: Hash): (e: Event)
    requires l.txIndex <= MAX_UINT32 && l.index <= MAX_UINT32
  {
    Event(number, blockHash, l.txHash, l.txIndex, l.index, l.address, l.topics, l.data)
  }

  predicate LogAcceptable(number: uint64, blockHash: Hash, ts: seq<Transaction>, l: EthLog) {
    && !l.removed
    && l.blockHash == blockHash
    && l.blockNumber == number
    && l.index <= MAX_UINT32
    && l.txIndex <= MAX_UINT32
    && |l.topics| <= 4
    && l.txIndex < |ts|
    && ts[l.txIndex].hash == l.txHash
  }

  predicate LogsAcceptable(number: uint64, blockHash: Hash, ts: seq<Transaction>, logs: seq<EthLog>) {
    && (forall i | 0 <= i < |logs| :: LogAcceptable(number, blockHash, ts, logs[i]))
    && (forall i, j | 0 <= i < j < |logs| :: logs[i].index != logs[j].index)
  }

  function MappedLogs(number: uint64, blockHash: Hash, ts: seq<Transaction>, logs: seq<EthLog>): (r: seq<Event>)
    requires LogsAcceptable(number, blockHash, ts, logs)
  {
    seq(|logs|, i requires 0 <= i < |logs| =>
      assert LogAcceptable(number, blockHash, ts, logs[i]);
      MapLog(logs[i], number, blockHash))
  }

  /** Looking a log's transaction up by hash is the same as looking at the place it names. */
  lemma LogChecks(number: uint64, blockHash: Hash, positions: map<Hash, uint32>, ts: seq<Transaction>, l: EthLog)
    requires Indexes(positions, ts)
    ensures LogAcceptable(number, blockHash, ts, l) <==>
            && !l.removed && l.blockHash == blockHash && l.blockNumber == number
            && l.index <= MAX_UINT32 && l.txIndex <= MAX_UINT32 && |l.topics| <= 4
            && l.txHash in positions && l.txIndex == positions[l.txHash]
  {
  }

  function IndexesOf(logs: seq<EthLog>): (indexes: set<int>) {
    set l | l in logs :: l.index
  }

  /** The logs up to one more are acceptable exactly when the earlier ones are and this one adds to them. */
  lemma NextLog(number: uint64, blockHash: Hash, ts: seq<Transaction>, logs: seq<EthLog>, k: nat)
    requires k < |logs|
    ensures LogsAcceptable(number, blockHash, ts, logs[..k + 1]) <==>
            && LogsAcceptable(number, blockHash, ts, logs[..k])
            && LogAcceptable(number, blockHash, ts, logs[k])
            && logs[k].index !in IndexesOf(logs[..k])
    ensures IndexesOf(logs[..k + 1]) == IndexesOf(logs[..k]) + {logs[k].index}
  {
    var some, more := logs[..k], logs[..k + 1];
    assert more == some + [logs[k]];
    if LogsAcceptable(number, blockHash, ts, more) {
      assert forall i | 0 <= i < k :: some[i] == more[i];
      assert LogAcceptable(number, blockHash, ts, more[k]);
    }
  }

  lemma PrefixIsAcceptable(number: uint64, blockHash: Hash, ts: seq<Transaction>, logs: seq<EthLog>, k: nat)
    requires k <= |logs|
    ensures LogsAcceptable(number, blockHash, ts, logs) ==> LogsAcceptable(number, blockHash, ts, logs[..k])
  {
    assert forall i | 0 <= i < k :: logs[..k][i] == logs[i];
  }

  lemma MappedLogsGrow(number: uint64, blockHash: Hash, ts: seq<Transaction>, logs: seq<EthLog>, k: nat)
    requires k < |logs| && LogsAcceptable(number, blockHash, ts, logs[..k])
             && LogsAcceptable(number, blockHash, ts, logs[..k + 1])
    ensures LogAcceptable(number, blockHash, ts, logs[k])
    ensures MappedLogs(number, blockHash, ts, logs[..k + 1])
            == MappedLogs(number, blockHash, ts, logs[..k]) + [MapLog(logs[k], number, blockHash)]
  {
    assert LogAcceptable(number, blockHash, ts, logs[..k + 1][k]);
  }

  method MapEvents(number: uint64, blockHash: Hash, logs: seq<EthLog>, positions: map<Hash, uint32>,
                   ghost ts: seq<Transaction>)
    returns (ok: bool, events: seq<Event>)
    requires Indexes(positions, ts)
    ensures ok <==> LogsAcceptable(number, blockHash, ts, logs)
    ensures ok ==> events == SortBy(MappedLogs(number, blockHash, ts, logs), ByLogIndex)
  {
    events := [];
    var seenLogIndexes: set<int> := {};
    var index := 0;
    while index < |logs|
      invariant 0 <= index <= |logs|
      invariant LogsAcceptable(number, blockHash, ts, logs[..index])
      invariant events == MappedLogs(number, blockHash, ts, logs[..index])
      invariant seenLogIndexes == IndexesOf(logs[..index])
    {
      var l := logs[index];
      LogChecks(number, blockHash, positions, ts, l);
      NextLog(number, blockHash, ts, logs, index);
      if l.removed || l.blockHash != blockHash || l.blockNumber != number
         || l.index > MAX_UINT32 || l.txIndex > MAX_UINT32 || |l.topics| > 4
         || l.txHash !in positions || l.txIndex != positions[l.txHash]
         || l.index in seenLogIndexes
      {
        PrefixIsAcceptable(number, blockHash, ts, logs, index + 1);
        return false, events;
      }
      MappedLogsGrow(number, blockHash, ts, logs, index);
      seenLogIndexes := seenLogIndexes + {l.index};
      events := events + [MapLog(l, number, blockHash)];
      index := index + 1;
    }
    assert logs[..index] == logs;
    events := SortBy(events, ByLogIndex);
    ok := true;
  }

  /** What FetchBlock returns for the answers to its two RPC calls. */
  function Fetched(chainID: uint64, number: uint64, answer: BlockAnswer, logs: LogsAnswer, now: int)
    : (r: Result<Bundle>)
  {
    match answer
    case BlockFailed => Err(Rpc)
    case BlockMissing => Err(InconsistentBlockData)
    case BlockFound(b) =>
      if b.number != Some(number) || !TransactionsAcceptable(chainID, b.transactions) then Err(InconsistentBlockData)
      else if logs == LogsFailed then Err(Rpc)
      else
        var ts := MappedTransactions(chainID, b.transactions, number, b.hash);
        if !LogsAcceptable(number, b.hash, ts, logs.logs) then Err(InconsistentBlockData)
        else
          Ok(Bundle(
            Block(number, b.hash, b.parentHash, b.time, b.gasLimit, b.gasUsed, b.baseFee, |ts|, now),
            ts,
            SortBy(MappedLogs(number, b.hash, ts, logs.logs), ByLogIndex)))
  }

  method FetchBlock(chainID: uint64, number: uint64, answer: BlockAnswer, logs: LogsAnswer, now: int)
    returns (r: Result<Bundle>)
    ensures r == Fetched(chainID, number, answer, logs, now)
  {
    if answer == BlockFailed {
      return Err(Rpc);
    }
    if answer == BlockMissing || answer.block.number != Some(number) {
      return Err(InconsistentBlockData);
    }
    var b := answer.block;
    var ok, ts, positions := MapTransactions(chainID, b.transactions, number, b.hash);
    if !ok {
      return Err(InconsistentBlockData);
    }
    if logs == LogsFailed {
      return Err(Rpc);
    }
    var events;
    ok, events := MapEvents(number, b.hash, logs.logs, positions, ts);
    if !ok {
      return Err(InconsistentBlockData);
    }
    var header := Block(number, b.hash, b.parentHash, b.time, b.gasLimit, b.gasUsed, b.baseFee, |ts|, now);
    return Ok(Bundle(header, ts, events));
  }

  /**
   * Every bundle the fetcher returns passes all per-block checks of the store, and its events are the
   * mapped logs, rearranged into strictly ascending log-index order.
   */
  lemma FetchedBundleFits(chainID: uint64, number: uint64, answer: BlockAnswer, logs: LogsAnswer, now: int)
    requires Fetched(chainID, number, answer, logs, now).Ok?
    ensures var b := Fetched(chainID, number, answer, logs, now).value;
            && ValidBundle(b)
            && b.block.number == number
            && b.block.hash == answer.block.hash
            && b.block.parentHash == answer.block.parentHash
            && StrictlyAscending(b.events, ByLogIndex)
            && multiset(b.events) == multiset(MappedLogs(number, b.block.hash, b.transactions, logs.logs))
  {
    var b := Fetched(chainID, number, answer, logs, now).value;
    var mapped := MappedLogs(number, b.block.hash, b.transactions, logs.logs);
    assert DistinctKeys(mapped, ByLogIndex);
    SortIsAscending(mapped, ByLogIndex);
    SameElements(b.events, mapped);
    forall i | 0 <= i < |b.events| ensures EventFits(b, b.events[i]) {
      assert b.events[i] in mapped;
    }
    assert forall i, j | 0 <= i < j < |b.events| :: ByLogIndex(b.events[i]) < ByLogIndex(b.events[j]);
  }
}
