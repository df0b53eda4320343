/** Where the two stores and the fetcher meet. */
module Acceptance {
  import opened Domain
  import opened Chain
  import opened Memory
  import opened Postgres
  import opened PostgresSafety
  import opened Fetcher
  import Ranger

  /** What FetchBlock may return for a height, whatever the endpoint answers. */
  ghost predicate Fetchable(chainID: uint64, number: uint64, r: Result<Bundle>) {
    exists answer, logs, now :: r == Fetched(chainID, number, answer, logs, now)
  }

  lemma FetchableFits(chainID: uint64, number: uint64, r: Result<Bundle>)
    requires Fetchable(chainID, number, r) && r.Ok?
    ensures ValidBundle(r.value)
  {
    var answer, logs, now :| r == Fetched(chainID, number, answer, logs, now);
    FetchedBundleFits(chainID, number, answer, logs, now);
  }

  lemma RangeHoldsAnswers(a: Ranger.Answers, from: uint64, cancelled: bool, bs: seq<Bundle>)
    requires Ranger.RangeResult(a, from, cancelled) == Ok(bs)
    ensures |bs| == |a| && Ranger.ValidRange(bs, from)
    ensures forall i | 0 <= i < |a| :: a[i] == Ok(bs[i])
  {
    assert forall i | 0 <= i < |a| :: a[i].Ok?;
  }

  lemma RangeHeights(bs: seq<Bundle>, from: uint64)
    requires Ranger.ValidRange(bs, from)
    ensures Contiguous(ByNumber(bs)) && Linked(ByNumber(bs))
  {
    ByNumberIsExact(bs, from);
  }

  lemma RangeIsWellformed(bs: seq<Bundle>, from: uint64)
    requires forall i | 0 <= i < |bs| :: bs[i].block.number == from + i && ValidBundle(bs[i])
    ensures Wellformed(ByNumber(bs))
  {
    ByNumberIsExact(bs, from);
  }

  /** Every answer is either an error or a bundle that is consistent with itself. */
  ghost predicate AnswersFit(a: Ranger.Answers) {
    forall i | 0 <= i < |a| :: a[i].Ok? ==> ValidBundle(a[i].value)
  }

  lemma RangeFitsStore(a: Ranger.Answers, from: uint64, cancelled: bool, bs: seq<Bundle>)
    requires AnswersFit(a) && Ranger.RangeResult(a, from, cancelled) == Ok(bs)
    ensures Wellformed(ByNumber(bs)) && Contiguous(ByNumber(bs)) && Linked(ByNumber(bs))
  {
    RangeHoldsAnswers(a, from, cancelled, bs);
    forall i | 0 <= i < |bs| ensures bs[i].block.number == from + i && ValidBundle(bs[i]) {
      assert a[i] == Ok(bs[i]);
    }
    RangeHeights(bs, from);
    RangeIsWellformed(bs, from);
  }

  /**
   * Whatever the endpoint answers, a fetched range passes every check of the store except possibly
   * one: that no transaction hash occurs in two of its blocks.
   */
  lemma FetchedRangeFitsStore(chainID: uint64, a: Ranger.Answers, from: uint64, cancelled: bool, bs: seq<Bundle>)
    requires from + |a| <= MAX_UINT64 + 1 && forall i | 0 <= i < |a| :: Fetchable(chainID, from + i, a[i])
    requires Ranger.RangeResult(a, from, cancelled) == Ok(bs)
    ensures Wellformed(ByNumber(bs)) && Contiguous(ByNumber(bs)) && Linked(ByNumber(bs))
    ensures ValidChain(ByNumber(bs)) <==> UniqueTransactions(ByNumber(bs))
  {
    forall i | 0 <= i < |a| ensures a[i].Ok? ==> ValidBundle(a[i].value) {
      if a[i].Ok? {
        FetchableFits(chainID, from + i, a[i]);
      }
    }
    RangeFitsStore(a, from, cancelled, bs);
  }

  const ORPHAN := Bundle(Block(5, 105, 104, 0, 0, 0, None, 0, 0), [], [])

  const ORPHAN_UPDATE := CanonicalUpdate(1, 5, 3, [ORPHAN], 0)

  lemma OrphanChain()
    ensures Candidate(map[], ORPHAN_UPDATE) == map[5 := ORPHAN] && ValidChain(map[5 := ORPHAN])
  {
    CandidateContents(map[], ORPHAN_UPDATE);
    assert ValidBundle(ORPHAN);
  }

  lemma EmptyStoresMirror()
    ensures Mirrors(EMPTY_DB, EMPTY_LEDGER)
  {
  }

  lemma OrphanIsRejected(db: Db, u: CanonicalUpdate)
    requires |u.blocks| > 0 && u.retainFrom < u.replaceFrom && u.replaceFrom - 1 !in db.blocks
    ensures Transact(db, u) == Err(InvalidCanonicalUpdate)
  {
  }

  /** Acceptance goes one way only: a block without its retained parent is fine for the first store only. */
  lemma MemoryAcceptsMore()
    ensures Mirrors(EMPTY_DB, EMPTY_LEDGER)
    ensures Accepts(EMPTY_LEDGER, ORPHAN_UPDATE) && InRange(ORPHAN_UPDATE)
    ensures Transact(EMPTY_DB, ORPHAN_UPDATE) == Err(InvalidCanonicalUpdate)
  {
    EmptyStoresMirror();
    OrphanChain();
    OrphanIsRejected(EMPTY_DB, ORPHAN_UPDATE);
  }
}
