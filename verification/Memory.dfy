/** The in-memory store of internal/store/memory.go. */
module Memory {
  import opened Domain
  import opened Chain
  import opened Sorting
  import EventPages

  /** The fields of the store as one value; chain ID 0 means that no update was applied yet. */
  datatype Ledger = Ledger(chainID: uint64, bundles: Bundles, lastSyncedAt: int)

  const EMPTY_LEDGER := Ledger(0, map[], 0)

  /** Replacement blocks are numbered upwards without gaps, starting at the replace-from height. */
  predicate ValidReplacement(u: CanonicalUpdate) {
    forall i | 0 <= i < |u.blocks| :: u.blocks[i].block.number == u.replaceFrom + i
  }

  function ByNumber(blocks: seq<Bundle>): (m: Bundles) {
    if blocks == [] then map[] else
    var last := blocks[|blocks| - 1];
    ByNumber(blocks[..|blocks| - 1])[last.block.number := last]
  }

  lemma {:induction false} ByNumberIsExact(blocks: seq<Bundle>, from: uint64)
    requires forall i | 0 <= i < |blocks| :: blocks[i].block.number == from + i
    ensures forall n :: n in ByNumber(blocks) <==> from <= n < from + |blocks|
    ensures forall n | n in ByNumber(blocks) :: ByNumber(blocks)[n] == blocks[n - from]
  {
    if blocks != [] {
      ByNumberIsExact(blocks[..|blocks| - 1], from);
    }
  }

  /** What the store would hold after the update. */
  function Candidate(m: Bundles, u: CanonicalUpdate): (r: Bundles) {
    Restrict(m, u.retainFrom, u.replaceFrom) + ByNumber(u.blocks)
  }

  lemma CandidateContents(m: Bundles, u: CanonicalUpdate)
    requires ValidReplacement(u)
    ensures var r := Candidate(m, u);
            && (forall n :: n in r <==> (n in m && u.retainFrom <= n < u.replaceFrom)
                                        || u.replaceFrom <= n < u.replaceFrom + |u.blocks|)
            && (forall n | n in r && n < u.replaceFrom :: r[n] == m[n])
            && (forall n | n in r && n >= u.replaceFrom :: r[n] == u.blocks[n - u.replaceFrom])
  {
    ByNumberIsExact(u.blocks, u.replaceFrom);
  }

  predicate Accepts(s: Ledger, u: CanonicalUpdate) {
    && u.chainID != 0
    && u.retainFrom <= u.replaceFrom
    && ValidReplacement(u)
    && (s.chainID == 0 || s.chainID == u.chainID)
    && ValidChain(Candidate(s.bundles, u))
  }

  function Applied(s: Ledger, u: CanonicalUpdate): (r: Ledger) {
    Ledger(u.chainID, Candidate(s.bundles, u), u.syncedAt)
  }

  method ValidateReplacement(u: CanonicalUpdate) returns (ok: bool)
    ensures ok <==> ValidReplacement(u)
  {
    if |u.blocks| == 0 {
      return true;
    }
    if u.blocks[0].block.number != u.replaceFrom {
      return false;
    }
    var index := 1;
    while index < |u.blocks|
      invariant 1 <= index <= |u.blocks|
      invariant forall i | 0 <= i < index :: u.blocks[i].block.number == u.replaceFrom + i
    {
      var previous := u.blocks[index - 1].block.number;
      var current := u.blocks[index].block.number;
      if previous == MAX_UINT64 || current != previous + 1 {
        return false;
      }
      index := index + 1;
    }
    return true;
  }

  predicate ListsHeights(numbers: seq<uint64>, m: Bundles) {
    && (forall n | n in numbers :: n in m)
    && (forall n | n in m :: n in numbers)
    && (forall i, j | 0 <= i < j < |numbers| :: numbers[i] < numbers[j])
  }

  method SortedBlockNumbers(m: Bundles) returns (numbers: seq<uint64>)
    ensures ListsHeights(numbers, m)
  {
    var collected: seq<uint64> := [];
    var rest := m.Keys;
    while rest != {}
      invariant rest <= m.Keys
      invariant forall n :: n in m <==> n in rest || n in collected
      invariant forall n | n in collected :: n !in rest
      invariant DistinctKeys(collected, (n: uint64) => n)
      decreases rest
    {
      var n :| n in rest;
      collected := collected + [n];
      rest := rest - {n};
    }
    numbers := SortBy(collected, n => n);
    SortIsAscending(collected, (n: uint64) => n);
    SameElements(numbers, collected);
  }

  method ValidateTransactions(b: Bundle, seen: set<Hash>)
    returns (ok: bool, seenNow: set<Hash>, positions: map<Hash, uint32>)
    requires |b.transactions| <= MAX_UINT32
    ensures ok <==> && (forall i | 0 <= i < |b.transactions| :: TransactionFits(b, i))
                    && DistinctTransactions(b.transactions)
                    && TxHashes(b) !! seen
    ensures ok ==> seenNow == seen + TxHashes(b)
    ensures ok ==> Indexes(positions, b.transactions)
  {
    seenNow, positions := seen, map[];
    var index := 0;
    while index < |b.transactions|
      invariant 0 <= index <= |b.transactions|
      invariant forall i | 0 <= i < index :: TransactionFits(b, i)
      invariant Indexes(positions, b.transactions[..index])
      invariant seenNow == seen + positions.Keys
      invariant positions.Keys !! seen
    {
      var t := b.transactions[index];
      if t.blockNumber != b.block.number || t.blockHash != b.block.hash || t.index != index {
        assert !TransactionFits(b, index);
        return false, seenNow, positions;
      }
      if t.hash in seenNow {
        assert t.hash in TxHashes(b);
        assert t.hash in positions ==> b.transactions[positions[t.hash]].hash == b.transactions[index].hash;
        return false, seenNow, positions;
      }
      seenNow := seenNow + {t.hash};
      positions := positions[t.hash := index];
      index := index + 1;
    }
    assert b.transactions[..index] == b.transactions;
    IndexedHashes(positions, b);
    ok := true;
  }

  method ValidateEvents(b: Bundle, positions: map<Hash, uint32>) returns (ok: bool)
    requires Indexes(positions, b.transactions)
    ensures ok <==> && (forall i | 0 <= i < |b.events| :: EventFits(b, b.events[i]))
                    && DistinctLogs(b.events)
  {
    var seenLogs: set<uint32> := {};
    var index := 0;
    while index < |b.events|
      invariant 0 <= index <= |b.events|
      invariant forall i | 0 <= i < index :: EventFits(b, b.events[i])
      invariant forall i, j | 0 <= i < j < index :: b.events[i].logIndex != b.events[j].logIndex
      invariant forall l :: l in seenLogs <==> exists i :: 0 <= i < index && b.events[i].logIndex == l
    {
      var e := b.events[index];
      if e.transactionHash !in positions || e.transactionIndex != positions[e.transactionHash] {
        assert !EventFits(b, b.events[index]);
        return false;
      }
      if e.blockNumber != b.block.number || e.blockHash != b.block.hash || |e.topics| > 4 {
        assert !EventFits(b, b.events[index]);
        return false;
      }
      if e.logIndex in seenLogs {
        var i :| 0 <= i < index && b.events[i].logIndex == e.logIndex;
        assert b.events[i].logIndex == b.events[index].logIndex;
        return false;
      }
      seenLogs := seenLogs + {e.logIndex};
      index := index + 1;
    }
    return true;
  }

  /** The hashes of all transactions below height `k`. */
  ghost function HashesBelow(m: Bundles, k: int): set<Hash> {
    set n, h | n in m && n < k && h in TxHashes(m[n]) :: h
  }

  /** What the validator checks of one block, looking only at the blocks below it. */
  ghost predicate Sound(m: Bundles, n: uint64)
    requires n in m
  {
    && m[n].block.number == n
    && ValidBundle(m[n])
    && (IsLowest(m, n) || (n - 1 in m && m[n].block.parentHash == m[n - 1].block.hash))
    && TxHashes(m[n]) !! HashesBelow(m, n)
  }

  ghost predicate AllSound(m: Bundles) {
    forall n {:trigger Sound(m, n)} | n in m :: Sound(m, n)
  }

  lemma {:induction false} SoundRunHasNoGap(m: Bundles, a: uint64, k: uint64, b: uint64)
    requires a in m && b in m && a <= k <= b
    requires AllSound(m)
    ensures k in m
    decreases b - k
  {
    if k < b {
      SoundRunHasNoGap(m, a, k + 1, b);
      assert Sound(m, k + 1);
    }
  }

  lemma SoundPairIsDisjoint(m: Bundles, a: uint64, b: uint64)
    requires a in m && b in m && a < b && Sound(m, b)
    ensures TxHashes(m[a]) !! TxHashes(m[b])
  {
    assert TxHashes(m[a]) <= HashesBelow(m, b);
  }

  lemma SoundIsContiguous(m: Bundles)
    requires AllSound(m)
    ensures Contiguous(m)
  {
    forall a, b, k: uint64 | a in m && b in m && a <= k <= b ensures k in m {
      SoundRunHasNoGap(m, a, k, b);
    }
  }

  lemma SoundIsLinked(m: Bundles)
    requires AllSound(m)
    ensures Linked(m)
  {
    forall a, b | a in m && b in m && b == a + 1 ensures m[b].block.parentHash == m[a].block.hash {
      assert Sound(m, b);
    }
  }

  lemma SoundIsUnique(m: Bundles)
    requires AllSound(m)
    ensures UniqueTransactions(m)
  {
    forall a, b | a in m && b in m && a != b ensures TxHashes(m[a]) !! TxHashes(m[b]) {
      SoundPairIsDisjoint(m, if a < b then a else b, if a < b then b else a);
    }
  }

  lemma SoundBlocksFormChain(m: Bundles)
    requires AllSound(m)
    ensures ValidChain(m)
  {
    forall n | n in m ensures m[n].block.number == n && ValidBundle(m[n]) {
      assert Sound(m, n);
    }
    SoundIsContiguous(m);
    SoundIsLinked(m);
    SoundIsUnique(m);
  }

  lemma ChainBlockIsSound(m: Bundles, n: uint64)
    requires ValidChain(m) && n in m
    ensures Sound(m, n)
  {
    if !IsLowest(m, n) {
      var k :| k in m && k < n;
      var before: uint64 := n - 1;
      assert k <= before <= n;
    }
    assert TxHashes(m[n]) !! HashesBelow(m, n);
  }

  /** Checking each block against those below it is checking the whole chain. */
  lemma ChainIsSound(m: Bundles)
    ensures ValidChain(m) <==> AllSound(m)
  {
    if ValidChain(m) {
      forall n | n in m ensures Sound(m, n) {
        ChainBlockIsSound(m, n);
      }
    } else if AllSound(m) {
      SoundBlocksFormChain(m);
    }
  }

  /** The height at `position` of the ascending list, or one past all heights at its end. */
  ghost function Bound(numbers: seq<uint64>, position: nat): int {
    if position < |numbers| then numbers[position] else MAX_UINT64 + 1
  }

  lemma ListPosition(m: Bundles, numbers: seq<uint64>, p: nat)
    requires ListsHeights(numbers, m) && p < |numbers|
    ensures p == 0 ==> IsLowest(m, numbers[p])
    ensures p > 0 ==> !IsLowest(m, numbers[p])
    ensures p > 0 ==> (numbers[p] - 1 in m <==> numbers[p] == numbers[p - 1] + 1)
    ensures HashesBelow(m, Bound(numbers, p + 1)) == HashesBelow(m, numbers[p]) + TxHashes(m[numbers[p]])
  {
    if p > 0 {
      assert numbers[p - 1] in m && numbers[p - 1] < numbers[p];
    }
    if p > 0 && numbers[p] - 1 in m {
      var q :| 0 <= q < |numbers| && numbers[q] == numbers[p] - 1;
    }
    forall k | k in m ensures k < Bound(numbers, p + 1) <==> k <= numbers[p] {
      var q :| 0 <= q < |numbers| && numbers[q] == k;
    }
  }

  method ValidateBundle(b: Bundle, seen: set<Hash>) returns (ok: bool, seenNow: set<Hash>)
    ensures ok <==> ValidBundle(b) && TxHashes(b) !! seen
    ensures ok ==> seenNow == seen + TxHashes(b)
  {
    if b.block.transactionCount != |b.transactions| || |b.transactions| > MAX_UINT32 {
      return false, seen;
    }
    var fits, nowSeen, positions := ValidateTransactions(b, seen);
    if !fits {
      return false, seen;
    }
    seenNow := nowSeen;
    ok := ValidateEvents(b, positions);
  }

  /** What the check of one block finds, from the block below it in the list and the hashes seen so far. */
  predicate Follows(m: Bundles, numbers: seq<uint64>, p: nat)
    requires p < |numbers| && (forall n | n in numbers :: n in m)
  {
    p == 0 ||
    var previous := m[numbers[p - 1]].block;
    numbers[p] == previous.number + 1 && m[numbers[p]].block.parentHash == previous.hash
  }

  lemma CheckedIsSound(m: Bundles, numbers: seq<uint64>, p: nat)
    requires ListsHeights(numbers, m) && p < |numbers| && (p > 0 ==> m[numbers[p - 1]].block.number == numbers[p - 1])
    ensures Sound(m, numbers[p]) <==>
            && m[numbers[p]].block.number == numbers[p] && Follows(m, numbers, p)
            && ValidBundle(m[numbers[p]]) && TxHashes(m[numbers[p]]) !! HashesBelow(m, numbers[p])
  {
    ListPosition(m, numbers, p);
  }

  lemma NothingBelowFirst(m: Bundles, numbers: seq<uint64>)
    requires ListsHeights(numbers, m)
    ensures numbers != [] ==> HashesBelow(m, numbers[0]) == {}
  {
    if numbers != [] {
      ListPosition(m, numbers, 0);
    }
  }

  method ValidateBlock(m: Bundles, numbers: seq<uint64>, position: nat, seen: set<Hash>)
    returns (ok: bool, seenNow: set<Hash>)
    requires ListsHeights(numbers, m) && position < |numbers| && seen == HashesBelow(m, numbers[position])
    requires position > 0 ==> m[numbers[position - 1]].block.number == numbers[position - 1]
    ensures ok <==> Sound(m, numbers[position])
    ensures ok ==> seenNow == HashesBelow(m, Bound(numbers, position + 1))
  {
    var number := numbers[position];
    var b := m[number];
    ListPosition(m, numbers, position);
    CheckedIsSound(m, numbers, position);
    if b.block.number != number {
      return false, seen;
    }
    if position > 0 {
      var previous := m[numbers[position - 1]].block;
      if number != previous.number + 1 || b.block.parentHash != previous.hash {
        return false, seen;
      }
    }
    ok, seenNow := ValidateBundle(b, seen);
  }

  method ValidateBlocks(m: Bundles) returns (ok: bool)
    ensures ok <==> AllSound(m)
  {
    var numbers := SortedBlockNumbers(m);
    var seen: set<Hash> := {};
    NothingBelowFirst(m, numbers);
    var position := 0;
    while position < |numbers|
      invariant 0 <= position <= |numbers|
      invariant forall i | 0 <= i < position :: Sound(m, numbers[i])
      invariant position < |numbers| ==> seen == HashesBelow(m, numbers[position])
    {
      assert position > 0 ==> Sound(m, numbers[position - 1]);
      var fits, seenNow := ValidateBlock(m, numbers, position, seen);
      if !fits {
        return false;
      }
      seen := seenNow;
      position := position + 1;
    }
    return true;
  }

  method ValidateCanonicalBundles(m: Bundles) returns (ok: bool)
    ensures ok <==> ValidChain(m)
  {
    ok := ValidateBlocks(m);
    ChainIsSound(m);
  }

  method HighestBundle(m: Bundles) returns (tip: Option<ChainTip>)
    ensures tip == None <==> m == map[]
    ensures tip.Some? ==> IsHighest(m, tip.value.number) && tip.value.hash == m[tip.value.number].block.hash
  {
    var highest: uint64 := 0;
    var found := false;
    var rest := m.Keys;
    while rest != {}
      invariant rest <= m.Keys
      invariant found <==> rest != m.Keys
      invariant found ==> highest in m && forall n | n in m && n !in rest :: n <= highest
      decreases rest
    {
      var n :| n in rest;
      if !found || n > highest {
        highest, found := n, true;
      }
      rest := rest - {n};
    }
    assert m == map[] <==> m.Keys == {};
    tip := if found then Some(ChainTip(highest, m[highest].block.hash)) else None;
  }

  /** The events of one block that a query selects. */
  method SelectEvents(source: seq<Event>, q: EventQuery) returns (events: seq<Event>)
    requires DistinctKeys(source, EventPages.Newest)
    ensures forall e :: e in events <==> e in source && EventPages.Selected(e, q.address, q.before)
    ensures DistinctKeys(events, EventPages.Newest)
  {
    events := [];
    var index := 0;
    while index < |source|
      invariant 0 <= index <= |source|
      invariant forall e :: e in events <==> e in source[..index] && EventPages.Selected(e, q.address, q.before)
      invariant DistinctKeys(events, EventPages.Newest)
    {
      var e := source[index];
      assert source[..index + 1] == source[..index] + [e];
      if e.address == q.address && EventPages.EventBeforeCursor(e, q.before) {
        assert forall x | x in source[..index] :: EventPages.Newest(x) != EventPages.Newest(e);
        events := events + [e];
      }
      index := index + 1;
    }
    assert source[..index] == source;
  }

  lemma BlockEventsAreDistinct(m: Bundles, n: uint64)
    requires Wellformed(m) && n in m
    ensures DistinctKeys(m[n].events, EventPages.Newest)
    ensures forall e | e in m[n].events :: e.blockNumber == n
  {
    var es := m[n].events;
    forall e | e in es ensures e.blockNumber == n {
      EventPages.EventHasOnePlace(m, n, e);
    }
    assert ValidBundle(m[n]);
    forall i, j | 0 <= i < j < |es| ensures EventPages.Newest(es[i]) != EventPages.Newest(es[j]) {
      EventPages.BeforeIsPosition(es[i], es[j]);
    }
  }

  lemma ConcatKeepsDistinct(a: seq<Event>, b: seq<Event>, n: uint64)
    requires DistinctKeys(a, EventPages.Newest) && DistinctKeys(b, EventPages.Newest)
    requires forall e | e in a :: e.blockNumber != n
    requires forall e | e in b :: e.blockNumber == n
    ensures DistinctKeys(a + b, EventPages.Newest)
  {
    forall i, j | 0 <= i < |a| && 0 <= j < |b| ensures EventPages.Newest(a[i]) != EventPages.Newest(b[j]) {
      EventPages.BeforeIsPosition(a[i], b[j]);
      assert a[i] in a && b[j] in b;
    }
  }

  /** The stored bundles, less the replaced and the pruned ones, plus the new ones. */
  method BuildCandidate(m: Bundles, u: CanonicalUpdate) returns (candidate: Bundles)
    ensures candidate == Candidate(m, u)
  {
    candidate := m;
    var rest := candidate.Keys;
    while rest != {}
      invariant rest <= m.Keys
      invariant candidate == map n | n in m && (n in rest || u.retainFrom <= n < u.replaceFrom) :: m[n]
      decreases rest
    {
      var n :| n in rest;
      if n >= u.replaceFrom || n < u.retainFrom {
        candidate := candidate - {n};
      }
      rest := rest - {n};
    }
    ghost var retained := candidate;
    assert retained == Restrict(m, u.retainFrom, u.replaceFrom);
    var index := 0;
    while index < |u.blocks|
      invariant 0 <= index <= |u.blocks|
      invariant candidate == retained + ByNumber(u.blocks[..index])
    {
      var b := u.blocks[index];
      assert u.blocks[..index + 1][..index] == u.blocks[..index];
      candidate := candidate[b.block.number := b];
      index := index + 1;
    }
    assert u.blocks[..index] == u.blocks;
  }

  method CutPage(events: seq<Event>, limit: uint32) returns (page: EventPage)
    ensures page == EventPages.Cut(events, limit)
  {
    if limit == 0 || |events| == 0 {
      return EventPage([], None);
    }
    if |events| <= limit {
      return EventPage(events, None);
    }
    var pageEvents := events[..limit];
    var last := pageEvents[|pageEvents| - 1];
    return EventPage(pageEvents, Some(EventCursor(last.blockNumber, last.blockHash, last.logIndex)));
  }

  class Store {
    var chainID: uint64
    var bundles: Bundles
    var lastSyncedAt: int

    function State(): (s: Ledger)
      reads this
    {
      Ledger(chainID, bundles, lastSyncedAt)
    }

    /** What every update keeps. */
    ghost predicate Valid()
      reads this
    {
      ValidChain(bundles)
    }

    constructor ()
      ensures Valid() && State() == EMPTY_LEDGER
    {
      chainID, bundles, lastSyncedAt := 0, map[], 0;
    }

    method CanonicalTip(cancelled: bool) returns (r: Result<Option<ChainTip>>)
      ensures cancelled <==> r.Err?
      ensures r.Err? ==> r.error == Cancelled
      ensures r.Ok? ==> (r.value == None <==> bundles == map[])
      ensures r.Ok? && r.value.Some? ==>
                IsHighest(bundles, r.value.value.number) &&
                r.value.value.hash == bundles[r.value.value.number].block.hash
    {
      if cancelled {
        return Err(Cancelled);
      }
      var tip := HighestBundle(bundles);
      return Ok(tip);
    }

    method CanonicalHash(cancelled: bool, number: uint64) returns (r: Result<Hash>)
      ensures r == if cancelled then Err(Cancelled)
                   else if number in bundles then Ok(bundles[number].block.hash)
                   else Err(NotFound)
    {
      if cancelled {
        return Err(Cancelled);
      }
      if number !in bundles {
        return Err(NotFound);
      }
      return Ok(bundles[number].block.hash);
    }

    /** Applies the whole update or changes nothing. */
    method ApplyCanonicalUpdate(cancelled: bool, u: CanonicalUpdate) returns (r: Result<()>)
      modifies this
      ensures old(Valid()) ==> Valid()
      ensures r.Ok? <==> !cancelled && Accepts(old(State()), u)
      ensures r.Ok? ==> State() == Applied(old(State()), u)
      ensures r.Err? ==> State() == old(State())
      ensures r.Err? ==> r.error == if cancelled then Cancelled else InvalidCanonicalUpdate
    {
      if cancelled {
        return Err(Cancelled);
      }
      if u.chainID == 0 || u.retainFrom > u.replaceFrom {
        return Err(InvalidCanonicalUpdate);
      }
      var ok := ValidateReplacement(u);
      if !ok {
        return Err(InvalidCanonicalUpdate);
      }
      if chainID != 0 && chainID != u.chainID {
        return Err(InvalidCanonicalUpdate);
      }
      var candidate := BuildCandidate(bundles, u);
      ok := ValidateCanonicalBundles(candidate);
      if !ok {
        return Err(InvalidCanonicalUpdate);
      }
      chainID, bundles, lastSyncedAt := u.chainID, candidate, u.syncedAt;
      return Ok(());
    }

    /** Collects in whatever order the map is walked, sorts, and cuts. */
    method EventsByAddress(cancelled: bool, q: EventQuery) returns (r: Result<EventPage>)
      requires Valid()
      ensures r == if cancelled then Err(Cancelled) else EventPages.PageOf(bundles, q)
    {
      if cancelled {
        return Err(Cancelled);
      }
      if q.limit > MAX_EVENT_PAGE_SIZE {
        return Err(InvalidQuery);
      }
      if q.before.Some? {
        var c := q.before.value;
        if c.blockNumber !in bundles || bundles[c.blockNumber].block.hash != c.blockHash {
          return Err(StaleCursor);
        }
      }
      var events := MatchingEvents(q);
      var page := CutPage(events, q.limit);
      return Ok(page);
    }

    method MatchingEvents(q: EventQuery) returns (events: seq<Event>)
      requires Valid()
      ensures events == EventPages.Listing(bundles, q.address, q.before)
    {
      events := [];
      var rest := bundles.Keys;
      while rest != {}
        invariant rest <= bundles.Keys
        invariant DistinctKeys(events, EventPages.Newest)
        invariant forall e | e in events :: e.blockNumber !in rest
        invariant forall e :: e in events <==>
            (exists n :: n in bundles && n !in rest && e in bundles[n].events)
                && EventPages.Selected(e, q.address, q.before)
        decreases rest
      {
        var n :| n in rest;
        BlockEventsAreDistinct(bundles, n);
        var selected := SelectEvents(bundles[n].events, q);
        ConcatKeepsDistinct(events, selected, n);
        events := events + selected;
        rest := rest - {n};
      }
      var sorted := SortBy(events, EventPages.Newest);
      SortIsAscending(events, EventPages.Newest);
      SameElements(sorted, events);
      EventPages.ChainIsPageable(bundles);
      EventPages.ListingIsOnly(bundles, q.address, q.before, sorted);
      events := sorted;
    }
  }
}
