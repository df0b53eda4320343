/** The entities of internal/domain and the bounded integers they are made of. */
module Domain {

  const MAX_UINT8 := 0xFF
  const MAX_INT32 := 0x7FFF_FFFF
  const MAX_UINT32 := 0xFFFF_FFFF
  const MAX_INT64 := 0x7FFF_FFFF_FFFF_FFFF
  const MAX_UINT64 := 0xFFFF_FFFF_FFFF_FFFF
  const TWO_TO_160 := 0x1_0000_0000_0000_0000_0000_0000_0000_0000_0000_0000
  const TWO_TO_256 := 0x1_0000_0000_0000_0000_0000_0000_0000_0000_0000_0000_0000_0000_0000_0000_0000_0000

  type byte = x: int | 0 <= x <= MAX_UINT8
  type uint8 = x: int | 0 <= x <= MAX_UINT8
  type uint32 = x: int | 0 <= x <= MAX_UINT32
  type uint64 = x: int | 0 <= x <= MAX_UINT64
  /** 32 bytes, read as the big-endian number they spell. */
  type Hash = x: int | 0 <= x < TWO_TO_256
  /** 20 bytes, read as the big-endian number they spell. */
  type Address = x: int | 0 <= x < TWO_TO_160

  const MAX_BLOCK_WINDOW := 50
  const MAX_EVENT_PAGE_SIZE := 1000

  datatype Option<+T> = None | Some(value: T)

  /** The error sentinels of the indexer and store packages. */
  datatype Error =
    | InconsistentBlockData
    | InvalidFetchRange
    | FetchFailed
    | InvalidSyncConfig
    | InvalidSyncDependency
    | HeadChanged
    | NotFound
    | InvalidCanonicalUpdate
    | InvalidQuery
    | StaleCursor
    | InconsistentData
    | Rpc
    | Database
    | Cancelled

  datatype Result<+T> = Ok(value: T) | Err(error: Error) {
    predicate IsFailure() {
      Err?
    }

    function PropagateFailure<U>(): Result<U>
      requires Err?
    {
      Err(error)
    }

    function Extract(): T
      requires Ok?
    {
      value
    }
  }

  datatype Block = Block(
    number: uint64,
    hash: Hash,
    parentHash: Hash,
    timestamp: uint64,
    gasLimit: uint64,
    gasUsed: uint64,
    baseFee: Option<int>,
    transactionCount: int,
    indexedAt: int)

  datatype Transaction = Transaction(
    hash: Hash,
    blockNumber: uint64,
    blockHash: Hash,
    index: uint32,
    kind: uint8,
    nonce: uint64,
    sender: Address,
    recipient: Option<Address>,
    value: Option<int>,
    gasLimit: uint64,
    gasPrice: Option<int>,
    maxFee: Option<int>,
    maxPriorityFee: Option<int>,
    input: seq<byte>)

  datatype Event = Event(
    blockNumber: uint64,
    blockHash: Hash,
    transactionHash: Hash,
    transactionIndex: uint32,
    logIndex: uint32,
    address: Address,
    topics: seq<Hash>,
    data: seq<byte>)

  /** The atomic unit that is fetched and stored. */
  datatype Bundle = Bundle(block: Block, transactions: seq<Transaction>, events: seq<Event>)

  datatype ChainTip = ChainTip(number: uint64, hash: Hash)

  datatype EventCursor = EventCursor(blockNumber: uint64, blockHash: Hash, logIndex: uint32)

  datatype EventQuery = EventQuery(address: Address, limit: uint32, before: Option<EventCursor>)

  datatype EventPage = EventPage(events: seq<Event>, nextCursor: Option<EventCursor>)

  datatype CanonicalUpdate = CanonicalUpdate(
    chainID: uint64,
    replaceFrom: uint64,
    retainFrom: uint64,
    blocks: seq<Bundle>,
    syncedAt: int)

  /** A bundle without the wall-clock time at which it was indexed. */
  function Content(b: Bundle): (c: Bundle) {
    b.(block := b.block.(indexedAt := 0))
  }
}
