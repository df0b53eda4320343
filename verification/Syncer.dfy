/** One synchronization cycle: internal/indexer/syncer.go over the in-memory store. */
module Syncer {
  import opened Domain
  import opened Chain
  import opened Memory
  import Ranger

  /** `wired` says that fetcher, chain reader and store are present. */
  datatype Config = Config(
    wired: bool,
    chainID: uint64,
    fetcherChainID: Option<int>,
    blockWindow: uint64,
    headMode: string,
    rpcConcurrency: int)

  datatype Header = Header(number: Option<int>, hash: Hash)

  datatype HeaderAnswer = HeaderFailed | HeaderMissing | HeaderFound(header: Header)

  /**
   * Everything one cycle reads from outside the store.  A cycle asks for the head once and, at any
   * height, at most once for the header and once for the block with its logs; `fetch` is what
   * FetchBlock makes of the latter.  Answers are therefore functions of the height; nothing relates
   * one answer to another, so the endpoint may change its view of the chain between any two calls.
   * The flags say where the context is done.
   */
  datatype Env = Env(
    head: HeaderAnswer,
    header: uint64 -> HeaderAnswer,
    fetch: uint64 -> Result<Bundle>,
    now: int,
    tipCancelled: bool,
    hashCancelled: uint64 -> bool,
    fetchCancelled: bool,
    applyCancelled: bool)

  datatype Mode = InitialLoad | Current | Append | FullReload | Reorg

  datatype ReorgResult = ReorgResult(
    ancestor: Option<ChainTip>,
    replacedFrom: uint64,
    replacedTo: uint64,
    replacedBlockCount: uint64)

  datatype Plan = Plan(from: uint64, mode: Mode, reorg: Option<ReorgResult>)

  datatype SyncResult = SyncResult(
    head: ChainTip,
    storedTip: Option<ChainTip>,
    mode: Mode,
    fromBlock: uint64,
    replaceFrom: uint64,
    blockCount: nat,
    transactionCount: nat,
    eventCount: nat,
    syncedAt: int,
    reorg: Option<ReorgResult>)

  datatype Cycle = Cycle(ledger: Ledger, result: SyncResult)

  function ConfigError(c: Config): (e: Option<Error>)
    ensures e == None <==> && c.wired && c.fetcherChainID == Some(c.chainID) && c.chainID > 0
                           && 1 <= c.blockWindow <= MAX_BLOCK_WINDOW && c.rpcConcurrency >= 1
                           && c.headMode in ["latest", "safe", "finalized"]
    ensures e.Some? ==> e.value in {InvalidSyncConfig, InvalidSyncDependency}
  {
    if !c.wired then Some(InvalidSyncDependency)
    else if c.chainID == 0 then Some(InvalidSyncConfig)
    else if c.fetcherChainID != Some(c.chainID) then Some(InvalidSyncDependency)
    else if c.blockWindow == 0 || c.blockWindow > MAX_BLOCK_WINDOW then Some(InvalidSyncConfig)
    else if c.rpcConcurrency < 1 then Some(InvalidSyncConfig)
    else if c.headMode !in ["latest", "safe", "finalized"] then Some(InvalidSyncConfig)
    else None
  }

  /** The lower bound of the retained window: at most `window` blocks end at `head`. */
  function WindowStart(head: uint64, window: uint64): (start: uint64)
    requires window >= 1
    ensures start <= head
    ensures head - start + 1 == if head + 1 < window then head + 1 else window
  {
    if window - 1 > head then 0 else head - (window - 1)
  }

  function Located(answer: HeaderAnswer): (r: Result<ChainTip>) {
    match answer
    case HeaderFailed => Err(Rpc)
    case HeaderMissing => Err(InconsistentBlockData)
    case HeaderFound(h) =>
      if h.number.None? || !(0 <= h.number.value <= MAX_UINT64) then Err(InconsistentBlockData)
      else Ok(ChainTip(h.number.value, h.hash))
  }

  function StoredHash(m: Bundles, env: Env, tip: ChainTip, number: uint64): (r: Result<Hash>) {
    if number == tip.number then Ok(tip.hash)
    else if env.hashCancelled(number) then Err(Cancelled)
    else if number in m then Ok(m[number].block.hash)
    else Err(NotFound)
  }

  function ChainHash(env: Env, number: uint64, head: ChainTip): (r: Result<Hash>) {
    if number == head.number then Ok(head.hash) else
    var at :- Located(env.header(number));
    if at.number != number then Err(InconsistentBlockData) else Ok(at.hash)
  }

  /** The search for a common ancestor, from height `number` downwards. */
  function AncestorFrom(m: Bundles, env: Env, tip: ChainTip, head: ChainTip, retainFrom: uint64, number: uint64)
    : (r: Result<Option<ChainTip>>)
    requires retainFrom <= number
    ensures r.Ok? && r.value.Some? ==> retainFrom <= r.value.value.number <= number
    decreases number
  {
    var stored := StoredHash(m, env, tip, number);
    if stored == Err(NotFound) then Ok(None) else
    var storedHash :- stored;
    var chainHash :- ChainHash(env, number, head);
    if storedHash == chainHash then Ok(Some(ChainTip(number, storedHash)))
    else if number == retainFrom then Ok(None)
    else AncestorFrom(m, env, tip, head, retainFrom, number - 1)
  }

  function Min(a: uint64, b: uint64): uint64 {
    if a < b then a else b
  }

  function ReplacementStart(m: Bundles, env: Env, storedTip: Option<ChainTip>, head: ChainTip, retainFrom: uint64)
    : (r: Result<Plan>)
    requires retainFrom <= head.number && head.number - retainFrom < MAX_BLOCK_WINDOW
  {
    if storedTip == None then Ok(Plan(retainFrom, InitialLoad, None)) else
    var tip := storedTip.value;
    if tip.number > head.number || tip.number < retainFrom then Ok(Plan(retainFrom, FullReload, None))
    else if tip == head then
      if head.number == MAX_UINT64 then Err(InconsistentBlockData)
      else Ok(Plan(head.number + 1, Current, None))
    else
      var ancestor :- AncestorFrom(m, env, tip, head, retainFrom, Min(tip.number, head.number));
      if ancestor == None then
        Ok(Plan(retainFrom, Reorg, Some(ReorgResult(None, retainFrom, tip.number, tip.number - retainFrom + 1))))
      else if ancestor.value.number == MAX_UINT64 then Err(InconsistentBlockData)
      else if ancestor.value.number == tip.number then Ok(Plan(ancestor.value.number + 1, Append, None))
      else
        var from := ancestor.value.number + 1;
        Ok(Plan(from, Reorg, Some(ReorgResult(ancestor, from, tip.number, tip.number - from + 1))))
  }

  function Answers(env: Env, from: uint64, to: uint64): (a: Ranger.Answers)
    requires from <= to
    ensures |a| == to - from + 1
    ensures forall i | 0 <= i < |a| :: a[i] == env.fetch(from + i)
  {
    seq(to - from + 1, i requires 0 <= i <= to - from => env.fetch(from + i))
  }

  function FetchRange(env: Env, from: uint64, to: uint64): (r: Result<seq<Bundle>>) {
    if from > to || to - from >= MAX_INT64 then Err(InvalidFetchRange)
    else Ranger.RangeResult(Answers(env, from, to), from, env.fetchCancelled)
  }

  function CountTransactions(bs: seq<Bundle>): nat {
    if bs == [] then 0 else CountTransactions(bs[..|bs| - 1]) + |bs[|bs| - 1].transactions|
  }

  function CountEvents(bs: seq<Bundle>): nat {
    if bs == [] then 0 else CountEvents(bs[..|bs| - 1]) + |bs[|bs| - 1].events|
  }

  /** The blocks to store: the fetched range, which must end in the selected head. */
  function Suffix(env: Env, from: uint64, head: ChainTip): (r: Result<seq<Bundle>>)
    ensures r.Ok? ==> |r.value| == if from <= head.number then head.number - from + 1 else 0
  {
    if from > head.number then Ok([]) else
    var bundles :- FetchRange(env, from, head.number);
    if bundles[|bundles| - 1].block.hash != head.hash then Err(HeadChanged) else Ok(bundles)
  }

  /** What a cycle decides to do before it touches the store. */
  datatype Decision = Decision(head: ChainTip, storedTip: Option<ChainTip>, plan: Plan, blocks: seq<Bundle>)

  ghost function Decide(m: Bundles, c: Config, env: Env): (r: Result<Decision>)
    ensures r.Ok? ==> ConfigError(c) == None && 1 <= c.blockWindow <= MAX_BLOCK_WINDOW
  {
    if ConfigError(c).Some? then Err(ConfigError(c).value) else
    var head :- Located(env.head);
    if env.tipCancelled then Err(Cancelled) else
    var plan :- ReplacementStart(m, env, TipOf(m), head, WindowStart(head.number, c.blockWindow));
    var blocks :- Suffix(env, plan.from, head);
    Ok(Decision(head, TipOf(m), plan, blocks))
  }

  function UpdateOf(c: Config, env: Env, d: Decision): CanonicalUpdate
    requires c.blockWindow >= 1
  {
    CanonicalUpdate(c.chainID, d.plan.from, WindowStart(d.head.number, c.blockWindow), d.blocks, env.now)
  }

  function ResultOf(c: Config, env: Env, d: Decision): SyncResult
    requires c.blockWindow >= 1
  {
    SyncResult(d.head, d.storedTip, d.plan.mode, WindowStart(d.head.number, c.blockWindow), d.plan.from,
               |d.blocks|, CountTransactions(d.blocks), CountEvents(d.blocks), env.now, d.plan.reorg)
  }

  /** What one cycle makes of a store: the new store and the result, or an error and no change. */
  ghost function SyncCycle(s: Ledger, c: Config, env: Env): (r: Result<Cycle>) {
    var d :- Decide(s.bundles, c, env);
    if env.applyCancelled then Err(Cancelled)
    else if !Accepts(s, UpdateOf(c, env, d)) then Err(InvalidCanonicalUpdate)
    else Ok(Cycle(Applied(s, UpdateOf(c, env, d)), ResultOf(c, env, d)))
  }

  method CommonAncestor(store: Store, env: Env, tip: ChainTip, head: ChainTip, retainFrom: uint64)
    returns (r: Result<Option<ChainTip>>)
    requires retainFrom <= tip.number && retainFrom <= head.number
    ensures r == AncestorFrom(store.bundles, env, tip, head, retainFrom, Min(tip.number, head.number))
  {
    var number := Min(tip.number, head.number);
    while true
      invariant retainFrom <= number
      invariant AncestorFrom(store.bundles, env, tip, head, retainFrom, Min(tip.number, head.number))
             == AncestorFrom(store.bundles, env, tip, head, retainFrom, number)
      decreases number
    {
      var stored: Result<Hash>;
      if number == tip.number {
        stored := Ok(tip.hash);
      } else {
        stored := store.CanonicalHash(env.hashCancelled(number), number);
      }
      if stored == Err(NotFound) {
        return Ok(None);
      }
      var storedHash :- stored;
      var chainHash :- ChainHash(env, number, head);
      if storedHash == chainHash {
        return Ok(Some(ChainTip(number, storedHash)));
      }
      if number == retainFrom {
        return Ok(None);
      }
      number := number - 1;
    }
  }

  method PlanReplacement(store: Store, env: Env, storedTip: Option<ChainTip>, head: ChainTip, retainFrom: uint64)
    returns (r: Result<Plan>)
    requires retainFrom <= head.number && head.number - retainFrom < MAX_BLOCK_WINDOW
    ensures r == ReplacementStart(store.bundles, env, storedTip, head, retainFrom)
  {
    if storedTip == None {
      return Ok(Plan(retainFrom, InitialLoad, None));
    }
    var tip := storedTip.value;
    if tip.number > head.number || tip.number < retainFrom {
      return Ok(Plan(retainFrom, FullReload, None));
    }
    if tip.number == head.number && tip.hash == head.hash {
      if head.number == MAX_UINT64 {
        return Err(InconsistentBlockData);
      }
      return Ok(Plan(head.number + 1, Current, None));
    }
    var ancestor :- CommonAncestor(store, env, tip, head, retainFrom);
    if ancestor == None {
      return Ok(Plan(retainFrom, Reorg, Some(ReorgResult(None, retainFrom, tip.number, tip.number - retainFrom + 1))));
    }
    if ancestor.value.number == MAX_UINT64 {
      return Err(InconsistentBlockData);
    }
    if ancestor.value.number == tip.number {
      return Ok(Plan(ancestor.value.number + 1, Append, None));
    }
    var from := ancestor.value.number + 1;
    return Ok(Plan(from, Reorg, Some(ReorgResult(ancestor, from, tip.number, tip.number - from + 1))));
  }

  method Count(bundles: seq<Bundle>) returns (transactions: nat, events: nat)
    ensures transactions == CountTransactions(bundles) && events == CountEvents(bundles)
  {
    transactions, events := 0, 0;
    var index := 0;
    while index < |bundles|
      invariant 0 <= index <= |bundles|
      invariant transactions == CountTransactions(bundles[..index])
      invariant events == CountEvents(bundles[..index])
    {
      assert bundles[..index + 1][..index] == bundles[..index];
      transactions := transactions + |bundles[index].transactions|;
      events := events + |bundles[index].events|;
      index := index + 1;
    }
    assert bundles[..index] == bundles;
  }

  method DecideOnce(store: Store, c: Config, env: Env) returns (r: Result<Decision>)
    ensures r == Decide(store.bundles, c, env)
  {
    var configError := ConfigError(c);
    if configError.Some? {
      return Err(configError.value);
    }
    var head :- Located(env.head);
    var retainFrom := WindowStart(head.number, c.blockWindow);
    var storedTip :- store.CanonicalTip(env.tipCancelled);
    if storedTip.Some? {
      TipIs(store.bundles, storedTip.value.number);
    }
    var plan :- PlanReplacement(store, env, storedTip, head, retainFrom);
    var bundles: seq<Bundle> := [];
    if plan.from <= head.number {
      bundles :- FetchRange(env, plan.from, head.number);
      if bundles[|bundles| - 1].block.hash != head.hash {
        return Err(HeadChanged);
      }
    }
    return Ok(Decision(head, storedTip, plan, bundles));
  }

  /** The cycle as the syncer runs it, one store call after the other. */
  method SyncOnce(store: Store, c: Config, env: Env) returns (r: Result<SyncResult>)
    modifies store
    ensures match SyncCycle(old(store.State()), c, env)
            case Ok(cycle) => r == Ok(cycle.result) && store.State() == cycle.ledger
            case Err(e) => r == Err(e) && store.State() == old(store.State())
  {
    var d :- DecideOnce(store, c, env);
    var retainFrom := WindowStart(d.head.number, c.blockWindow);
    var u := CanonicalUpdate(c.chainID, d.plan.from, retainFrom, d.blocks, env.now);
    assert u == UpdateOf(c, env, d);
    var _ :- store.ApplyCanonicalUpdate(env.applyCancelled, u);
    var transactions, events := Count(d.blocks);
    return Ok(SyncResult(d.head, d.storedTip, d.plan.mode, retainFrom, d.plan.from,
                         |d.blocks|, transactions, events, env.now, d.plan.reorg));
  }
}
