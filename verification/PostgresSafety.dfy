/** What every committed transaction keeps, for any writers with any plans. */
module PostgresSafety {
  import opened Domain
  import opened Chain
  import opened Memory
  import opened Postgres
  import opened PostgresRefinement

  ghost predicate UniqueHashes(m: Bundles) {
    forall a, b | a in m && b in m && a != b :: m[a].block.hash != m[b].block.hash
  }

  ghost predicate Distinct(m: Bundles) {
    UniqueHashes(m) && UniqueTransactions(m)
  }

  lemma HeldHash(b: Bundle, h: Hash)
    ensures HasTransaction(b, h) <==> h in TxHashes(b)
  {
  }

  lemma FreshIsDisjoint(m: Bundles, b: Bundle)
    ensures FreshUpTo(m, b, |b.transactions|) <==> forall k | k in m :: TxHashes(m[k]) !! TxHashes(b)
  {
    if FreshUpTo(m, b, |b.transactions|) {
      forall k | k in m ensures TxHashes(m[k]) !! TxHashes(b) {
        forall h | h in TxHashes(b) ensures h !in TxHashes(m[k]) {
          var i :| 0 <= i < |b.transactions| && b.transactions[i].hash == h;
          HeldHash(m[k], h);
        }
      }
    }
    if forall k | k in m :: TxHashes(m[k]) !! TxHashes(b) {
      forall i | 0 <= i < |b.transactions| ensures !HoldsTransaction(m, b.transactions[i].hash) {
        assert b.transactions[i].hash in TxHashes(b);
        forall n | n in m ensures !HasTransaction(m[n], b.transactions[i].hash) {
          HeldHash(m[n], b.transactions[i].hash);
        }
      }
    }
  }

  lemma FreshKeepsDistinct(m: Bundles, b: Bundle)
    requires b.block.number !in m
    ensures Distinct(m[b.block.number := b]) <==> Distinct(m) && FreshIn(m, b)
  {
    var n, r := b.block.number, m[b.block.number := b];
    FreshIsDisjoint(m, b);
    if Distinct(r) {
      assert forall k | k in m :: k in r && r[k] == m[k] && k != n;
      assert n in r && r[n] == b;
      assert forall k | k in m :: TxHashes(r[k]) !! TxHashes(r[n]);
      assert forall k | k in m :: r[k].block.hash != r[n].block.hash;
    }
    if Distinct(m) && FreshIn(m, b) {
      forall a, c | a in r && c in r && a != c
        ensures r[a].block.hash != r[c].block.hash && TxHashes(r[a]) !! TxHashes(r[c])
      {
        assert a != n ==> r[a] == m[a];
        assert c != n ==> r[c] == m[c];
      }
    }
  }

  lemma PlacedWith(m: Bundles, b: Bundle)
    requires Placed(m) && ValidBundle(b)
    ensures Placed(m[b.block.number := b])
  {
    WellformedIsPlaced(map[b.block.number := b]);
    var r, one := m[b.block.number := b], map[b.block.number := b];
    forall n, t | n in r && t in r[n].transactions ensures t.blockNumber == n {
      if n == b.block.number { assert t in one[n].transactions; } else { assert t in m[n].transactions; }
    }
    forall n, e | n in r && e in r[n].events ensures e.blockNumber == n && HasTransaction(r[n], e.transactionHash) {
      if n == b.block.number { assert e in one[n].events; } else { assert e in m[n].events; }
    }
  }

  /** New blocks above all stored ones, each consistent with itself. */
  ghost predicate Insertable(m: Bundles, bs: seq<Bundle>, from: uint64) {
    && (forall n | n in m :: n < from)
    && (forall i | 0 <= i < |bs| :: bs[i].block.number == from + i && ValidBundle(bs[i]) && BundleInRange(bs[i]))
  }

  lemma BlockStep(db: Db, m: Bundles, b: Bundle)
    requires Represents(db, m) && Placed(m) && Distinct(m) && b.block.number !in m
    requires ValidBundle(b) && BundleInRange(b)
    ensures var r := ExecAll(db, BundleStatements(b));
            && (r.Some? <==> Distinct(m[b.block.number := b]))
            && (r.Some? ==> Represents(r.value, m[b.block.number := b]))
  {
    FreshKeepsDistinct(m, b);
    BundleInserted(db, m, b);
  }

  lemma LastHeightIsNew(init: seq<Bundle>, from: uint64)
    requires forall i | 0 <= i < |init| :: init[i].block.number == from + i
    ensures forall n | n in ByNumber(init) :: n < from + |init|
  {
    ByNumberIsExact(init, from);
  }

  lemma MergeThenUpdate(m: Bundles, n: Bundles, b: Bundle)
    ensures m + n[b.block.number := b] == (m + n)[b.block.number := b]
  {
  }

  lemma LastBlock(m: Bundles, bs: seq<Bundle>, from: uint64)
    requires bs != [] && Insertable(m, bs, from)
    ensures var init, last := bs[..|bs| - 1], bs[|bs| - 1];
            && Insertable(m, init, from)
            && last.block.number !in m + ByNumber(init)
            && m + ByNumber(bs) == (m + ByNumber(init))[last.block.number := last]
            && ValidBundle(last) && BundleInRange(last)
  {
    var init, last := bs[..|bs| - 1], bs[|bs| - 1];
    assert forall i | 0 <= i < |init| :: init[i] == bs[i];
    LastHeightIsNew(init, from);
    MergeThenUpdate(m, ByNumber(init), last);
  }

  lemma {:induction false} InsertedIsPlaced(m: Bundles, bs: seq<Bundle>, from: uint64)
    requires Placed(m) && Insertable(m, bs, from)
    ensures Placed(m + ByNumber(bs))
  {
    if bs == [] {
      assert m + ByNumber(bs) == m;
    } else {
      LastBlock(m, bs, from);
      InsertedIsPlaced(m, bs[..|bs| - 1], from);
      PlacedWith(m + ByNumber(bs[..|bs| - 1]), bs[|bs| - 1]);
    }
  }

  /** The statements succeed exactly when no block hash and no transaction would occur twice. */
  lemma {:induction false} BlocksInserted(db: Db, m: Bundles, bs: seq<Bundle>, from: uint64)
    requires Represents(db, m) && Placed(m) && Distinct(m) && Insertable(m, bs, from)
    ensures var r := ExecAll(db, Statements(bs));
            && (r.Some? <==> Distinct(m + ByNumber(bs)))
            && (r.Some? ==> Represents(r.value, m + ByNumber(bs)))
    decreases |bs|
  {
    if bs == [] {
      assert m + ByNumber(bs) == m;
    } else {
      var init, last := bs[..|bs| - 1], bs[|bs| - 1];
      LastBlock(m, bs, from);
      BlocksInserted(db, m, init, from);
      ExecConcat(db, Statements(init), BundleStatements(last));
      if ExecAll(db, Statements(init)).Some? {
        InsertedIsPlaced(m, init, from);
        BlockStep(ExecAll(db, Statements(init)).value, m + ByNumber(init), last);
      } else {
        FreshKeepsDistinct(m + ByNumber(init), last);
      }
    }
  }

  predicate InRange(u: CanonicalUpdate) {
    HeaderInRange(u) && forall i | 0 <= i < |u.blocks| :: BundleInRange(u.blocks[i])
  }

  /** The block that the first new block must extend is stored, if one is asked for. */
  predicate ParentPresent(m: Bundles, u: CanonicalUpdate) {
    |u.blocks| == 0 || u.replaceFrom == u.retainFrom || u.replaceFrom - 1 in m
  }

  predicate ParentFits(m: Bundles, u: CanonicalUpdate) {
    |u.blocks| == 0 || u.replaceFrom == u.retainFrom ||
    (u.replaceFrom - 1 in m && u.blocks[0].block.parentHash == m[u.replaceFrom - 1].block.hash)
  }

  lemma RestrictIsChain(m: Bundles, low: int, high: int)
    requires ValidChain(m)
    ensures ValidChain(Restrict(m, low, high))
  {
  }

  /** `r` is `m` below the height `from` and `top` from there on. */
  ghost predicate Joined(m: Bundles, top: Bundles, r: Bundles, low: uint64, from: uint64) {
    && (forall n | n in top :: n >= from && n in r && r[n] == top[n])
    && (forall n | n in m && low <= n < from :: n in r && r[n] == m[n])
    && (forall n | n in r :: n in top || (n in m && low <= n < from))
  }

  lemma CandidateIsJoined(m: Bundles, u: CanonicalUpdate)
    requires ValidReplacement(u)
    ensures Joined(m, ByNumber(u.blocks), Candidate(m, u), u.retainFrom, u.replaceFrom)
    ensures |u.blocks| > 0 ==> u.replaceFrom in ByNumber(u.blocks) && ByNumber(u.blocks)[u.replaceFrom] == u.blocks[0]
    ensures |u.blocks| == 0 ==> ByNumber(u.blocks) == map[]
  {
    ByNumberIsExact(u.blocks, u.replaceFrom);
  }

  lemma JoinIsContiguous(m: Bundles, top: Bundles, r: Bundles, low: uint64, from: uint64)
    requires Joined(m, top, r, low, from) && Contiguous(m) && Contiguous(top)
    requires top != map[] ==> from in top && (from <= low || from - 1 in m)
    ensures Contiguous(r)
  {
    forall a, b, k: uint64 | a in r && b in r && a <= k <= b ensures k in r {
      if b in top && k >= from {
        assert from <= k <= b;
      } else if b in top {
        var before: uint64 := from - 1;
        assert a <= k <= before;
      }
    }
  }

  lemma JoinIsLinked(m: Bundles, top: Bundles, r: Bundles, low: uint64, from: uint64)
    requires Joined(m, top, r, low, from) && Linked(m) && Linked(top)
    requires from in top && from - 1 in m && from > low ==> top[from].block.parentHash == m[from - 1].block.hash
    ensures Linked(r)
  {
    forall a, b | a in r && b in r && b == a + 1 ensures r[b].block.parentHash == r[a].block.hash {
      if b in top && a !in top {
        assert a < from <= b;
        assert a == from - 1 && b == from;
      }
    }
  }

  lemma ParentIsBelow(m: Bundles, u: CanonicalUpdate)
    requires ValidReplacement(u) && u.retainFrom <= u.replaceFrom && ParentFits(m, u)
    ensures var top, from := ByNumber(u.blocks), u.replaceFrom;
            && (top != map[] ==> from in top && (from <= u.retainFrom || from - 1 in m))
            && (from in top && from - 1 in m && from > u.retainFrom ==>
                   top[from].block.parentHash == m[from - 1].block.hash)
  {
    CandidateIsJoined(m, u);
  }

  lemma CandidateIsContiguous(m: Bundles, u: CanonicalUpdate)
    requires u.retainFrom <= u.replaceFrom && ValidReplacement(u) && ParentFits(m, u)
    requires Contiguous(m) && Contiguous(ByNumber(u.blocks))
    ensures Contiguous(Candidate(m, u))
  {
    ParentIsBelow(m, u);
    CandidateIsJoined(m, u);
    JoinIsContiguous(m, ByNumber(u.blocks), Candidate(m, u), u.retainFrom, u.replaceFrom);
  }

  lemma CandidateIsLinked(m: Bundles, u: CanonicalUpdate)
    requires u.retainFrom <= u.replaceFrom && ValidReplacement(u) && ParentFits(m, u)
    requires Linked(m) && Linked(ByNumber(u.blocks))
    ensures Linked(Candidate(m, u))
  {
    ParentIsBelow(m, u);
    CandidateIsJoined(m, u);
    JoinIsLinked(m, ByNumber(u.blocks), Candidate(m, u), u.retainFrom, u.replaceFrom);
  }

  lemma JoinIsWellformed(m: Bundles, top: Bundles, r: Bundles, low: uint64, from: uint64)
    requires Joined(m, top, r, low, from) && Wellformed(m) && Wellformed(top)
    ensures Wellformed(r)
  {
  }

  lemma CandidateIsWellformed(m: Bundles, u: CanonicalUpdate)
    requires ValidReplacement(u) && Wellformed(m) && Wellformed(ByNumber(u.blocks))
    ensures Wellformed(Candidate(m, u))
  {
    CandidateIsJoined(m, u);
    JoinIsWellformed(m, ByNumber(u.blocks), Candidate(m, u), u.retainFrom, u.replaceFrom);
  }

  /** The checks that the transaction makes, in terms of the chain. */
  ghost predicate Committable(s: Ledger, u: CanonicalUpdate) {
    && PreValid(u)
    && (s.chainID == 0 || s.chainID == u.chainID)
    && ParentFits(s.bundles, u)
    && Distinct(Candidate(s.bundles, u))
  }

  /** Old blocks, new blocks and the one link between them make a chain. */
  lemma CommittableIsAccepted(s: Ledger, u: CanonicalUpdate)
    requires ValidChain(s.bundles) && Committable(s, u)
    ensures Accepts(s, u)
  {
    CandidateIsContiguous(s.bundles, u);
    CandidateIsLinked(s.bundles, u);
    CandidateIsWellformed(s.bundles, u);
  }

  lemma TopIsRestriction(m: Bundles, top: Bundles, r: Bundles, low: uint64, from: uint64)
    requires Joined(m, top, r, low, from)
    ensures top == Restrict(r, from, MAX_UINT64 + 1)
  {
  }

  lemma NewBlocksAreChain(m: Bundles, u: CanonicalUpdate)
    requires ValidReplacement(u) && ValidChain(Candidate(m, u))
    ensures ValidChain(ByNumber(u.blocks))
  {
    CandidateIsJoined(m, u);
    TopIsRestriction(m, ByNumber(u.blocks), Candidate(m, u), u.retainFrom, u.replaceFrom);
    RestrictIsChain(Candidate(m, u), u.replaceFrom, MAX_UINT64 + 1);
  }

  lemma PresentParentFits(m: Bundles, u: CanonicalUpdate)
    requires ValidReplacement(u) && u.retainFrom <= u.replaceFrom && Linked(Candidate(m, u)) && ParentPresent(m, u)
    ensures ParentFits(m, u)
  {
    CandidateIsJoined(m, u);
    if |u.blocks| > 0 && u.replaceFrom > u.retainFrom {
      var a: uint64, b: uint64 := u.replaceFrom - 1, u.replaceFrom;
      assert a in Candidate(m, u) && b in Candidate(m, u);
    }
  }

  lemma NewBlocksAreInsertable(m: Bundles, u: CanonicalUpdate)
    requires PreValid(u)
    ensures Insertable(Restrict(m, u.retainFrom, u.replaceFrom), u.blocks, u.replaceFrom)
  {
    ByNumberIsExact(u.blocks, u.replaceFrom);
    forall i | 0 <= i < |u.blocks| ensures ValidBundle(u.blocks[i]) {
      var n: uint64 := u.blocks[i].block.number;
      assert n in ByNumber(u.blocks) && ByNumber(u.blocks)[n] == u.blocks[i];
    }
  }

  lemma RestrictIsDistinct(m: Bundles, low: int, high: int)
    requires Distinct(m) && Placed(m)
    ensures Distinct(Restrict(m, low, high)) && Placed(Restrict(m, low, high))
  {
    var r := Restrict(m, low, high);
    assert forall n | n in r :: n in m && r[n] == m[n];
  }

  /** After deletion and insertion the tables hold the candidate, if no key occurs twice. */
  lemma TablesAreFilled(db: Db, m: Bundles, u: CanonicalUpdate)
    requires Represents(db, m) && Placed(m) && Distinct(m) && PreValid(u)
    ensures var r := ExecAll(Delete(db, u), Statements(u.blocks));
            && (r.Some? <==> Distinct(Candidate(m, u)))
            && (r.Some? ==> Represents(r.value, Candidate(m, u)))
  {
    DeleteRepresents(db, m, u);
    RestrictIsDistinct(m, u.retainFrom, u.replaceFrom);
    NewBlocksAreInsertable(m, u);
    BlocksInserted(Delete(db, u), Restrict(m, u.retainFrom, u.replaceFrom), u.blocks, u.replaceFrom);
  }

  lemma ParentInTables(db: Db, m: Bundles, u: CanonicalUpdate)
    requires BlocksMatch(db, m) && u.retainFrom <= u.replaceFrom
    ensures ExtendsParent(Delete(db, u), u) <==> ParentFits(m, u)
  {
    assert forall k :: k in db.blocks <==> k in m by {
      assert forall k :: k in db.blocks.Keys <==> k in m.Keys;
    }
  }

  /** `sync_state` is empty before the first commit and afterwards one row that names the stored tip. */
  ghost predicate StateMatches(db: Db, s: Ledger) {
    if s.chainID == 0 then db.syncState == map[] && s.bundles == map[]
    else db.syncState == map[s.chainID := SyncRow(TipOf(s.bundles), s.lastSyncedAt)]
  }

  /** The tables hold what the in-memory store holds. */
  ghost predicate Mirrors(db: Db, s: Ledger) {
    && Represents(db, s.bundles)
    && ValidChain(s.bundles)
    && UniqueHashes(s.bundles)
    && (forall n | n in s.bundles :: n <= MAX_INT64)
    && StateMatches(db, s)
  }

  lemma TipMatches(db: Db, m: Bundles)
    requires BlocksMatch(db, m)
    ensures TipInTables(db) == TipOf(m)
  {
    assert forall k :: k in db.blocks <==> k in m by {
      assert forall k :: k in db.blocks.Keys <==> k in m.Keys;
    }
    assert db.blocks == map[] <==> m == map[];
    TipIsOnly(db, TipInTables(db), TipOf(m));
  }

  lemma CandidateHeights(m: Bundles, u: CanonicalUpdate)
    requires PreValid(u) && forall n | n in m :: n <= MAX_INT64
    ensures forall n | n in Candidate(m, u) :: n <= MAX_INT64
  {
    CandidateContents(m, u);
    forall n | n in Candidate(m, u) && n >= u.replaceFrom ensures n <= MAX_INT64 {
      assert BundleInRange(u.blocks[n - u.replaceFrom]);
    }
  }

  lemma SameChainMatches(db: Db, s: Ledger, chainID: uint64)
    requires StateMatches(db, s)
    ensures SameChain(db, chainID) <==> s.chainID == 0 || s.chainID == chainID
    ensures SameChain(db, chainID) ==> forall row :: db.syncState[chainID := row] == map[chainID := row]
  {
    assert s.chainID != 0 ==> s.chainID in db.syncState;
  }

  lemma TransactIsCommittable(db: Db, s: Ledger, u: CanonicalUpdate)
    requires Represents(db, s.bundles) && Placed(s.bundles) && Distinct(s.bundles) && StateMatches(db, s)
    ensures Transact(db, u).Ok? <==> Committable(s, u)
  {
    SameChainMatches(db, s, u.chainID);
    if PreValid(u) {
      ParentInTables(db, s.bundles, u);
      TablesAreFilled(db, s.bundles, u);
    }
  }

  lemma RepresentsIgnoresState(db: Db, m: Bundles, state: map<uint64, SyncRow>)
    requires Represents(db, m)
    ensures Represents(db.(syncState := state), m)
  {
    forall n, e | n in m && e in m[n].events ensures IsRow(db.(syncState := state), e) {
      assert IsRow(db, e);
    }
  }

  lemma {:induction false} SyncStateIsKept(db: Db, ss: seq<Statement>)
    requires ExecAll(db, ss).Some?
    ensures ExecAll(db, ss).value.syncState == db.syncState
  {
    if ss != [] {
      SyncStateIsKept(db, ss[..|ss| - 1]);
    }
  }

  lemma CommitHoldsCandidate(db: Db, s: Ledger, u: CanonicalUpdate)
    requires Represents(db, s.bundles) && Placed(s.bundles) && Distinct(s.bundles) && StateMatches(db, s)
    requires Transact(db, u).Ok?
    ensures Represents(Transact(db, u).value, Candidate(s.bundles, u))
    ensures StateMatches(Transact(db, u).value, Applied(s, u))
  {
    SameChainMatches(db, s, u.chainID);
    TablesAreFilled(db, s.bundles, u);
    var filled := ExecAll(Delete(db, u), Statements(u.blocks)).value;
    SyncStateIsKept(Delete(db, u), Statements(u.blocks));
    TipMatches(filled, Candidate(s.bundles, u));
    RepresentsIgnoresState(filled, Candidate(s.bundles, u), Transact(db, u).value.syncState);
  }

  /**
   * The exact acceptance condition: Postgres commits an update if and only if the in-memory store
   * accepts it, its numbers fit the columns, the parent it names is retained, and no block hash
   * would be stored twice.
   */
  lemma CommitsExactly(db: Db, s: Ledger, u: CanonicalUpdate)
    requires Mirrors(db, s)
    ensures Transact(db, u).Ok? <==>
            Accepts(s, u) && InRange(u) && ParentPresent(s.bundles, u) && UniqueHashes(Candidate(s.bundles, u))
  {
    WellformedIsPlaced(s.bundles);
    TransactIsCommittable(db, s, u);
    if Committable(s, u) {
      CommittableIsAccepted(s, u);
    }
    if Accepts(s, u) && InRange(u) && ParentPresent(s.bundles, u) && UniqueHashes(Candidate(s.bundles, u)) {
      NewBlocksAreChain(s.bundles, u);
      PresentParentFits(s.bundles, u);
    }
  }

  /**
   * Postgres refines the in-memory store: whatever it commits, checking only the new blocks, one
   * parent link and the keys, the in-memory store accepts after checking the whole chain, and both
   * hold the same chain afterwards.
   */
  lemma PostgresRefinesMemory(db: Db, s: Ledger, u: CanonicalUpdate)
    requires Mirrors(db, s) && Transact(db, u).Ok?
    ensures Accepts(s, u)
    ensures Mirrors(Transact(db, u).value, Applied(s, u))
  {
    CommitsExactly(db, s, u);
    WellformedIsPlaced(s.bundles);
    CommitHoldsCandidate(db, s, u);
    CandidateHeights(s.bundles, u);
  }
}
