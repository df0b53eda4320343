/** What it means for stored bundles to form one canonical chain. */
module Chain {
  import opened Domain

  type Bundles = map<uint64, Bundle>

  predicate TransactionFits(b: Bundle, i: nat)
    requires i < |b.transactions|
  {
    var t := b.transactions[i];
    t.blockNumber == b.block.number && t.blockHash == b.block.hash && t.index == i
  }

  predicate EventFits(b: Bundle, e: Event) {
    && e.transactionIndex < |b.transactions|
    && b.transactions[e.transactionIndex].hash == e.transactionHash
    && e.blockNumber == b.block.number
    && e.blockHash == b.block.hash
    && |e.topics| <= 4
  }

  predicate DistinctTransactions(ts: seq<Transaction>) {
    forall i, j | 0 <= i < j < |ts| :: ts[i].hash != ts[j].hash
  }

  predicate DistinctLogs(es: seq<Event>) {
    forall i, j | 0 <= i < j < |es| :: es[i].logIndex != es[j].logIndex
  }

  function ByLogIndex(e: Event): int {
    e.logIndex
  }

  /** One bundle is consistent with itself. */
  predicate ValidBundle(b: Bundle) {
    && b.block.transactionCount == |b.transactions| <= MAX_UINT32
    && (forall i | 0 <= i < |b.transactions| :: TransactionFits(b, i))
    && DistinctTransactions(b.transactions)
    && (forall i | 0 <= i < |b.events| :: EventFits(b, b.events[i]))
    && DistinctLogs(b.events)
  }

  function TxHashes(b: Bundle): (s: set<Hash>) {
    set t | t in b.transactions :: t.hash
  }

  /** `positions` maps each transaction hash of `ts` to the place where it stands. */
  predicate Indexes(positions: map<Hash, uint32>, ts: seq<Transaction>) {
    && (forall h | h in positions :: positions[h] < |ts| && ts[positions[h]].hash == h)
    && (forall i | 0 <= i < |ts| :: ts[i].hash in positions && positions[ts[i].hash] == i)
  }

  lemma IndexedHashes(positions: map<Hash, uint32>, b: Bundle)
    requires Indexes(positions, b.transactions)
    ensures positions.Keys == TxHashes(b)
    ensures DistinctTransactions(b.transactions)
  {
    assert forall h | h in positions :: b.transactions[positions[h]] in b.transactions;
  }

  predicate Contiguous(m: Bundles) {
    forall a, b, k: uint64 | a in m && b in m && a <= k <= b :: k in m
  }

  predicate Linked(m: Bundles) {
    forall a, b | a in m && b in m && b == a + 1 :: m[b].block.parentHash == m[a].block.hash
  }

  predicate UniqueTransactions(m: Bundles) {
    forall a, b | a in m && b in m && a != b :: TxHashes(m[a]) !! TxHashes(m[b])
  }

  predicate Wellformed(m: Bundles) {
    forall n | n in m :: m[n].block.number == n && ValidBundle(m[n])
  }

  /** One contiguous, hash-linked run of consistent bundles in which no transaction occurs twice. */
  predicate ValidChain(m: Bundles) {
    Wellformed(m) && Contiguous(m) && Linked(m) && UniqueTransactions(m)
  }

  predicate IsHighest(m: Bundles, n: uint64) {
    n in m && forall k | k in m :: k <= n
  }

  predicate IsLowest(m: Bundles, n: uint64) {
    n in m && forall k | k in m :: n <= k
  }

  /** The bundles at the heights from `from` up to, not including, `to`. */
  function Restrict(m: Bundles, from: int, to: int): (r: Bundles) {
    map n | n in m && from <= n < to :: m[n]
  }

  lemma {:induction false} HighestOf(keys: set<uint64>) returns (top: uint64)
    requires keys != {}
    ensures top in keys && forall k | k in keys :: k <= top
  {
    var first :| first in keys;
    var rest := keys - {first};
    top := first;
    if rest != {} {
      top := HighestOf(rest);
      if top < first {
        top := first;
      }
    }
    assert forall k | k in keys :: k == first || k in rest;
  }

  /** The block with the highest number, if there is any block. */
  ghost function TipOf(m: Bundles): (tip: Option<ChainTip>)
    ensures tip == None <==> m == map[]
    ensures tip.Some? ==> IsHighest(m, tip.value.number) && tip.value.hash == m[tip.value.number].block.hash
  {
    if m == map[] then None else
    assert exists n :: IsHighest(m, n) by {
      var n := HighestOf(m.Keys);
      assert IsHighest(m, n);
    }
    var n :| IsHighest(m, n);
    Some(ChainTip(n, m[n].block.hash))
  }

  lemma TipIs(m: Bundles, n: uint64)
    requires IsHighest(m, n)
    ensures TipOf(m) == Some(ChainTip(n, m[n].block.hash))
  {
  }
}
