/** The tables and the in-memory store hold the same chain. */
module PostgresRefinement {
  import opened Domain
  import opened Chain
  import opened Memory
  import opened Postgres

  ghost predicate HasTransaction(b: Bundle, h: Hash) {
    exists t :: t in b.transactions && t.hash == h
  }

  ghost predicate HoldsTransaction(m: Bundles, h: Hash) {
    exists n :: n in m && HasTransaction(m[n], h)
  }

  ghost predicate HasKey(b: Bundle, k: EventKey) {
    exists e :: e in b.events && KeyOf(e) == k
  }

  ghost predicate HoldsKey(m: Bundles, k: EventKey) {
    exists n :: n in m && HasKey(m[n], k)
  }

  /** The rows of the tables are the blocks, transactions and events of the chain, and no others. */
  ghost predicate BlocksMatch(db: Db, m: Bundles) {
    db.blocks.Keys == m.Keys && forall n | n in m :: db.blocks[n] == BlockRowOf(m[n].block)
  }

  ghost predicate TransactionsMatch(db: Db, m: Bundles) {
    && (forall h | h in db.transactions :: HoldsTransaction(m, h))
    && (forall n, t | n in m && t in m[n].transactions ::
          t.hash in db.transactions && db.transactions[t.hash] == TransactionRowOf(t))
  }

  ghost predicate RowsAreHeld(db: Db, m: Bundles) {
    forall k | k in db.events :: HoldsKey(m, k)
  }

  predicate IsRow(db: Db, e: Event) {
    KeyOf(e) in db.events && db.events[KeyOf(e)] == EventRowOf(e)
  }

  ghost predicate EventsAreRows(db: Db, m: Bundles) {
    forall n, e | n in m && e in m[n].events :: IsRow(db, e)
  }

  ghost predicate EventsMatch(db: Db, m: Bundles) {
    RowsAreHeld(db, m) && EventsAreRows(db, m)
  }

  ghost predicate Represents(db: Db, m: Bundles) {
    BlocksMatch(db, m) && TransactionsMatch(db, m) && EventsMatch(db, m)
  }

  /** Transactions and events are stored with the block they name, an event with its transaction. */
  ghost predicate Placed(m: Bundles) {
    && (forall n, t | n in m && t in m[n].transactions :: t.blockNumber == n)
    && (forall n, e | n in m && e in m[n].events :: e.blockNumber == n && HasTransaction(m[n], e.transactionHash))
  }

  lemma WellformedIsPlaced(m: Bundles)
    requires Wellformed(m)
    ensures Placed(m)
  {
    forall n, t | n in m && t in m[n].transactions ensures t.blockNumber == n {
      assert ValidBundle(m[n]);
      var i :| 0 <= i < |m[n].transactions| && m[n].transactions[i] == t;
      assert TransactionFits(m[n], i);
    }
    forall n, e | n in m && e in m[n].events ensures e.blockNumber == n && HasTransaction(m[n], e.transactionHash) {
      assert ValidBundle(m[n]);
      var i :| 0 <= i < |m[n].events| && m[n].events[i] == e;
      assert EventFits(m[n], m[n].events[i]);
      assert m[n].transactions[e.transactionIndex] in m[n].transactions;
    }
  }

  /** A row's transaction is found in the block the row names. */
  lemma RowNamesBlock(db: Db, m: Bundles, h: Hash) returns (t: Transaction)
    requires TransactionsMatch(db, m) && Placed(m) && h in db.transactions
    ensures var n := db.transactions[h].blockNumber;
            n in m && t in m[n].transactions && t.hash == h && db.transactions[h] == TransactionRowOf(t)
  {
    var n :| n in m && HasTransaction(m[n], h);
    t :| t in m[n].transactions && t.hash == h;
  }

  lemma KeptTransactionIsHeld(db: Db, m: Bundles, u: CanonicalUpdate, h: Hash)
    requires BlocksMatch(db, m) && TransactionsMatch(db, m) && Placed(m) && h in Delete(db, u).transactions
    ensures HoldsTransaction(Restrict(m, u.retainFrom, u.replaceFrom), h)
  {
    var r := Restrict(m, u.retainFrom, u.replaceFrom);
    var t := RowNamesBlock(db, m, h);
    assert r[t.blockNumber] == m[t.blockNumber];
    assert HasTransaction(r[t.blockNumber], h);
  }

  lemma HeldTransactionIsKept(db: Db, m: Bundles, u: CanonicalUpdate, n: uint64, t: Transaction)
    requires BlocksMatch(db, m) && TransactionsMatch(db, m) && Placed(m)
    requires n in m && u.retainFrom <= n < u.replaceFrom && t in m[n].transactions
    ensures t.hash in Delete(db, u).transactions && Delete(db, u).transactions[t.hash] == TransactionRowOf(t)
  {
    assert n in db.blocks.Keys && n in Delete(db, u).blocks;
    assert db.transactions[t.hash] == TransactionRowOf(t);
  }

  lemma HeldTransactionsAreKept(db: Db, m: Bundles, u: CanonicalUpdate)
    requires BlocksMatch(db, m) && TransactionsMatch(db, m) && Placed(m)
    ensures var r := Restrict(m, u.retainFrom, u.replaceFrom);
            forall n, t | n in r && t in r[n].transactions ::
              t.hash in Delete(db, u).transactions && Delete(db, u).transactions[t.hash] == TransactionRowOf(t)
  {
    var r := Restrict(m, u.retainFrom, u.replaceFrom);
    forall n, t | n in r && t in r[n].transactions
      ensures t.hash in Delete(db, u).transactions && Delete(db, u).transactions[t.hash] == TransactionRowOf(t)
    {
      HeldTransactionIsKept(db, m, u, n, t);
    }
  }

  lemma DeleteKeepsTransactions(db: Db, m: Bundles, u: CanonicalUpdate)
    requires BlocksMatch(db, m) && TransactionsMatch(db, m) && Placed(m)
    ensures TransactionsMatch(Delete(db, u), Restrict(m, u.retainFrom, u.replaceFrom))
  {
    HeldTransactionsAreKept(db, m, u);
    forall h | h in Delete(db, u).transactions ensures HoldsTransaction(Restrict(m, u.retainFrom, u.replaceFrom), h) {
      KeptTransactionIsHeld(db, m, u, h);
    }
  }

  lemma KeyNamesBlock(m: Bundles, k: EventKey)
    requires Placed(m) && HoldsKey(m, k)
    ensures k.blockNumber in m && HasKey(m[k.blockNumber], k)
  {
    var n :| n in m && HasKey(m[n], k);
    var e :| e in m[n].events && KeyOf(e) == k;
  }

  lemma DeletedEventIsHeld(db: Db, m: Bundles, u: CanonicalUpdate, k: EventKey)
    requires BlocksMatch(db, m) && Placed(m) && HoldsKey(m, k) && k in Delete(db, u).events
    ensures HoldsKey(Restrict(m, u.retainFrom, u.replaceFrom), k)
  {
    KeyNamesBlock(m, k);
    assert Restrict(m, u.retainFrom, u.replaceFrom)[k.blockNumber] == m[k.blockNumber];
  }

  lemma HeldEventIsKept(db: Db, m: Bundles, u: CanonicalUpdate, n: uint64, e: Event, t: Transaction)
    requires BlocksMatch(db, m) && TransactionsMatch(db, m) && EventsMatch(db, m) && Placed(m)
    requires n in m && u.retainFrom <= n < u.replaceFrom && e in m[n].events
    requires t in m[n].transactions && t.hash == e.transactionHash
    ensures IsRow(Delete(db, u), e)
  {
    assert n in db.blocks.Keys && t.blockNumber == n && e.blockNumber == n;
    assert db.transactions[t.hash] == TransactionRowOf(t);
    assert IsRow(db, e);
  }

  lemma HeldEventKeepsTransaction(db: Db, m: Bundles, u: CanonicalUpdate, n: uint64, e: Event)
    requires Represents(db, m) && Placed(m)
    requires n in m && u.retainFrom <= n < u.replaceFrom && e in m[n].events
    ensures IsRow(Delete(db, u), e)
  {
    assert HasTransaction(m[n], e.transactionHash);
    var t :| t in m[n].transactions && t.hash == e.transactionHash;
    HeldEventIsKept(db, m, u, n, e, t);
  }

  lemma DeletedEventsAreHeld(db: Db, m: Bundles, u: CanonicalUpdate)
    requires BlocksMatch(db, m) && EventsMatch(db, m) && Placed(m)
    ensures RowsAreHeld(Delete(db, u), Restrict(m, u.retainFrom, u.replaceFrom))
  {
    forall k | k in Delete(db, u).events ensures HoldsKey(Restrict(m, u.retainFrom, u.replaceFrom), k) {
      DeletedEventIsHeld(db, m, u, k);
    }
  }

  lemma HeldEventsAreKept(db: Db, m: Bundles, u: CanonicalUpdate)
    requires Represents(db, m) && Placed(m)
    ensures EventsAreRows(Delete(db, u), Restrict(m, u.retainFrom, u.replaceFrom))
  {
    var r := Restrict(m, u.retainFrom, u.replaceFrom);
    forall n, e | n in r && e in r[n].events ensures IsRow(Delete(db, u), e) {
      assert n in m && r[n] == m[n];
      HeldEventKeepsTransaction(db, m, u, n, e);
    }
  }

  lemma DeleteKeepsEvents(db: Db, m: Bundles, u: CanonicalUpdate)
    requires Represents(db, m) && Placed(m)
    ensures EventsMatch(Delete(db, u), Restrict(m, u.retainFrom, u.replaceFrom))
  {
    DeletedEventsAreHeld(db, m, u);
    HeldEventsAreKept(db, m, u);
  }

  /** Deleting with cascades leaves the tables of the retained blocks. */
  lemma DeleteRepresents(db: Db, m: Bundles, u: CanonicalUpdate)
    requires Represents(db, m) && Placed(m)
    ensures Represents(Delete(db, u), Restrict(m, u.retainFrom, u.replaceFrom))
  {
    DeleteKeepsTransactions(db, m, u);
    DeleteKeepsEvents(db, m, u);
    assert Delete(db, u).blocks.Keys == Restrict(m, u.retainFrom, u.replaceFrom).Keys;
  }

  /** Tables that a statement does not touch keep matching. */
  lemma TransactionsFrame(db: Db, m: Bundles, after: Db, r: Bundles)
    requires TransactionsMatch(db, m) && after.transactions == db.transactions
    requires forall n | n in m :: n in r && r[n].transactions == m[n].transactions
    requires forall n | n in r && n !in m :: r[n].transactions == []
    ensures TransactionsMatch(after, r)
  {
    forall h | h in db.transactions ensures HoldsTransaction(r, h) {
      var n :| n in m && HasTransaction(m[n], h);
      assert HasTransaction(r[n], h);
    }
  }

  lemma EventsFrame(db: Db, m: Bundles, after: Db, r: Bundles)
    requires EventsMatch(db, m) && after.events == db.events
    requires forall n | n in m :: n in r && r[n].events == m[n].events
    requires forall n | n in r && n !in m :: r[n].events == []
    ensures EventsMatch(after, r)
  {
    forall k | k in db.events ensures HoldsKey(r, k) {
      var n :| n in m && HasKey(m[n], k);
      assert HasKey(r[n], k);
    }
    forall n, e | n in r && e in r[n].events ensures IsRow(after, e) {
      assert IsRow(db, e);
    }
  }

  lemma InsertBlockRepresents(db: Db, m: Bundles, b: Block)
    requires Represents(db, m) && b.number !in m
    ensures Represents(Insert(db, InsertBlock(b.number, BlockRowOf(b))), m[b.number := Bundle(b, [], [])])
  {
    var r := m[b.number := Bundle(b, [], [])];
    var after := Insert(db, InsertBlock(b.number, BlockRowOf(b)));
    TransactionsFrame(db, m, after, r);
    EventsFrame(db, m, after, r);
  }

  lemma TransactionAdded(db: Db, m: Bundles, n: uint64, t: Transaction, r: Bundles)
    requires TransactionsMatch(db, m) && n in m && t.hash !in db.transactions
    requires r == m[n := m[n].(transactions := m[n].transactions + [t])]
    ensures TransactionsMatch(Insert(db, InsertTransaction(t.hash, TransactionRowOf(t))), r)
  {
    var after := Insert(db, InsertTransaction(t.hash, TransactionRowOf(t)));
    forall h | h in after.transactions ensures HoldsTransaction(r, h) {
      if h == t.hash {
        assert t in r[n].transactions;
        assert HasTransaction(r[n], h);
      } else {
        var k :| k in m && HasTransaction(m[k], h);
        var x :| x in m[k].transactions && x.hash == h;
        assert x in r[k].transactions;
        assert HasTransaction(r[k], h);
      }
    }
    forall k, x | k in r && x in r[k].transactions
      ensures x.hash in after.transactions && after.transactions[x.hash] == TransactionRowOf(x)
    {
      assert x in m[k].transactions || x == t;
    }
  }

  lemma InsertTransactionRepresents(db: Db, m: Bundles, n: uint64, t: Transaction)
    requires Represents(db, m) && n in m && t.hash !in db.transactions
    ensures Represents(Insert(db, InsertTransaction(t.hash, TransactionRowOf(t))),
                       m[n := m[n].(transactions := m[n].transactions + [t])])
  {
    var r := m[n := m[n].(transactions := m[n].transactions + [t])];
    TransactionAdded(db, m, n, t, r);
    EventsFrame(db, m, Insert(db, InsertTransaction(t.hash, TransactionRowOf(t))), r);
  }

  lemma EventAdded(db: Db, m: Bundles, n: uint64, e: Event, r: Bundles)
    requires EventsMatch(db, m) && n in m && KeyOf(e) !in db.events
    requires r == m[n := m[n].(events := m[n].events + [e])]
    ensures EventsMatch(Insert(db, InsertEvent(KeyOf(e), EventRowOf(e))), r)
  {
    var after := Insert(db, InsertEvent(KeyOf(e), EventRowOf(e)));
    forall k | k in after.events ensures HoldsKey(r, k) {
      if k == KeyOf(e) {
        assert e in r[n].events;
        assert HasKey(r[n], k);
      } else {
        var x :| x in m && HasKey(m[x], k);
        var y :| y in m[x].events && KeyOf(y) == k;
        assert y in r[x].events;
        assert HasKey(r[x], k);
      }
    }
    forall k, x | k in r && x in r[k].events ensures IsRow(after, x) {
      assert x in m[k].events || x == e;
      assert x in m[k].events ==> IsRow(db, x);
    }
  }

  lemma InsertEventRepresents(db: Db, m: Bundles, n: uint64, e: Event)
    requires Represents(db, m) && n in m && KeyOf(e) !in db.events
    ensures Represents(Insert(db, InsertEvent(KeyOf(e), EventRowOf(e))),
                       m[n := m[n].(events := m[n].events + [e])])
  {
    var r := m[n := m[n].(events := m[n].events + [e])];
    EventAdded(db, m, n, e, r);
    TransactionsFrame(db, m, Insert(db, InsertEvent(KeyOf(e), EventRowOf(e))), r);
  }

  /** A bundle as far as it has been inserted. */
  function Part(b: Bundle, k: nat, j: nat): Bundle
    requires k <= |b.transactions| && j <= |b.events|
  {
    Bundle(b.block, b.transactions[..k], b.events[..j])
  }

  /** `m` with the bundle inserted so far. */
  function With(m: Bundles, b: Bundle, k: nat, j: nat): Bundles
    requires k <= |b.transactions| && j <= |b.events|
  {
    m[b.block.number := Part(b, k, j)]
  }

  ghost predicate PartHas(b: Bundle, k: nat, h: Hash)
    requires k <= |b.transactions|
  {
    exists i :: 0 <= i < k && b.transactions[i].hash == h
  }

  ghost predicate PartHasKey(b: Bundle, j: nat, key: EventKey)
    requires j <= |b.events|
  {
    exists i :: 0 <= i < j && KeyOf(b.events[i]) == key
  }

  lemma HoldsWith(m: Bundles, b: Bundle, k: nat, j: nat, h: Hash)
    requires b.block.number !in m && k <= |b.transactions| && j <= |b.events|
    ensures HoldsTransaction(With(m, b, k, j), h) <==> HoldsTransaction(m, h) || PartHas(b, k, h)
  {
    var r := With(m, b, k, j);
    assert HasTransaction(r[b.block.number], h) <==> PartHas(b, k, h) by {
      if PartHas(b, k, h) {
        var i :| 0 <= i < k && b.transactions[i].hash == h;
        assert b.transactions[..k][i] in r[b.block.number].transactions;
      }
    }
    forall n | n in m ensures r[n] == m[n] {}
    assert HoldsTransaction(m, h) ==> exists n :: n in m && HasTransaction(r[n], h);
  }

  lemma HoldsKeyWith(m: Bundles, b: Bundle, k: nat, j: nat, key: EventKey)
    requires b.block.number !in m && k <= |b.transactions| && j <= |b.events|
    ensures HoldsKey(With(m, b, k, j), key) <==> HoldsKey(m, key) || PartHasKey(b, j, key)
  {
    var r := With(m, b, k, j);
    assert HasKey(r[b.block.number], key) <==> PartHasKey(b, j, key) by {
      if PartHasKey(b, j, key) {
        var i :| 0 <= i < j && KeyOf(b.events[i]) == key;
        assert b.events[..j][i] in r[b.block.number].events;
      }
    }
    forall n | n in m ensures r[n] == m[n] {}
    assert HoldsKey(m, key) ==> exists n :: n in m && HasKey(r[n], key);
  }

  /** No row of the block under construction has the index of the next transaction. */
  lemma RowOfPart(db: Db, m: Bundles, b: Bundle, k: nat, i: nat)
    requires i < k <= |b.transactions| && TransactionFits(b, i) && TransactionsMatch(db, With(m, b, k, 0))
    ensures b.transactions[i].hash in db.transactions && db.transactions[b.transactions[i].hash].index == i
  {
    assert b.transactions[..k][i] in With(m, b, k, 0)[b.block.number].transactions;
  }

  lemma RowOfOther(db: Db, m: Bundles, b: Bundle, k: nat, n: uint64, t: Transaction)
    requires k <= |b.transactions| && Placed(m) && b.block.number !in m && TransactionsMatch(db, With(m, b, k, 0))
    requires n in m && t in m[n].transactions
    ensures t.hash in db.transactions && db.transactions[t.hash].blockNumber == n
  {
    assert With(m, b, k, 0)[n] == m[n];
  }

  lemma RowsOfBlock(db: Db, m: Bundles, b: Bundle, k: nat, h: Hash)
    requires Placed(m) && b.block.number !in m && k < |b.transactions|
    requires forall i | 0 <= i < |b.transactions| :: TransactionFits(b, i)
    requires TransactionsMatch(db, With(m, b, k, 0)) && h in db.transactions
    ensures db.transactions[h].blockNumber != b.block.number || db.transactions[h].index != k
  {
    HoldsWith(m, b, k, 0, h);
    if PartHas(b, k, h) {
      var i :| 0 <= i < k && b.transactions[i].hash == h;
      RowOfPart(db, m, b, k, i);
    } else {
      var n :| n in m && HasTransaction(m[n], h);
      var t :| t in m[n].transactions && t.hash == h;
      RowOfOther(db, m, b, k, n, t);
    }
  }

  ghost predicate FreshUpTo(m: Bundles, b: Bundle, k: nat)
    requires k <= |b.transactions|
  {
    forall i | 0 <= i < k :: !HoldsTransaction(m, b.transactions[i].hash)
  }

  lemma HeldIsInTables(db: Db, m: Bundles, h: Hash)
    requires TransactionsMatch(db, m)
    ensures h in db.transactions <==> HoldsTransaction(m, h)
  {
    if HoldsTransaction(m, h) {
      var n :| n in m && HasTransaction(m[n], h);
      var t :| t in m[n].transactions && t.hash == h;
    }
  }

  lemma PermitsTransaction(db: Db, m: Bundles, b: Bundle, k: nat)
    requires ValidBundle(b) && Placed(m) && b.block.number !in m && k < |b.transactions|
    requires TransactionInRange(b.transactions[k])
    requires BlocksMatch(db, With(m, b, k, 0)) && TransactionsMatch(db, With(m, b, k, 0))
    ensures Permits(db, InsertTransaction(b.transactions[k].hash, TransactionRowOf(b.transactions[k])))
            <==> !HoldsTransaction(m, b.transactions[k].hash)
    ensures b.transactions[k].hash !in db.transactions <==> !HoldsTransaction(m, b.transactions[k].hash)
  {
    var h := b.transactions[k].hash;
    HoldsWith(m, b, k, 0, h);
    assert !PartHas(b, k, h);
    HeldIsInTables(db, With(m, b, k, 0), h);
    assert TransactionFits(b, k);
    forall x | x in db.transactions
      ensures db.transactions[x].blockNumber != b.block.number || db.transactions[x].index != k
    {
      RowsOfBlock(db, m, b, k, x);
    }
    assert b.block.number in db.blocks.Keys;
  }

  lemma WithNextTransaction(m: Bundles, b: Bundle, k: nat)
    requires k < |b.transactions|
    ensures var r := With(m, b, k, 0);
            With(m, b, k + 1, 0)
            == r[b.block.number :=
                   r[b.block.number].(transactions := r[b.block.number].transactions + [b.transactions[k]])]
  {
    assert b.transactions[..k + 1] == b.transactions[..k] + [b.transactions[k]];
  }

  lemma WithNextEvent(m: Bundles, b: Bundle, j: nat)
    requires j < |b.events|
    ensures var r := With(m, b, |b.transactions|, j);
            With(m, b, |b.transactions|, j + 1)
            == r[b.block.number := r[b.block.number].(events := r[b.block.number].events + [b.events[j]])]
  {
    assert b.events[..j + 1] == b.events[..j] + [b.events[j]];
  }

  lemma TransactionStep(db: Db, m: Bundles, b: Bundle, k: nat)
    requires ValidBundle(b) && Placed(m) && b.block.number !in m && k < |b.transactions|
    requires TransactionInRange(b.transactions[k]) && Represents(db, With(m, b, k, 0))
    ensures var r := Exec(db, InsertTransaction(b.transactions[k].hash, TransactionRowOf(b.transactions[k])));
            && (r.Some? <==> !HoldsTransaction(m, b.transactions[k].hash))
            && (r.Some? ==> Represents(r.value, With(m, b, k + 1, 0)))
  {
    PermitsTransaction(db, m, b, k);
    if !HoldsTransaction(m, b.transactions[k].hash) {
      InsertTransactionRepresents(db, With(m, b, k, 0), b.block.number, b.transactions[k]);
      WithNextTransaction(m, b, k);
    }
  }

  lemma FreshNext(m: Bundles, b: Bundle, k: nat)
    requires k < |b.transactions|
    ensures FreshUpTo(m, b, k + 1) <==> FreshUpTo(m, b, k) && !HoldsTransaction(m, b.transactions[k].hash)
  {
  }

  /** The transactions go in exactly when none of them is stored already. */
  lemma {:induction false} TransactionsInserted(db: Db, m: Bundles, b: Bundle, k: nat)
    requires ValidBundle(b) && Placed(m) && b.block.number !in m && k <= |b.transactions|
    requires forall i | 0 <= i < k :: TransactionInRange(b.transactions[i])
    requires Represents(db, With(m, b, 0, 0))
    ensures var r := ExecAll(db, TransactionStatements(b.transactions)[..k]);
            && (r.Some? <==> FreshUpTo(m, b, k))
            && (r.Some? ==> Represents(r.value, With(m, b, k, 0)))
  {
    if k > 0 {
      var ss := TransactionStatements(b.transactions);
      TransactionsInserted(db, m, b, k - 1);
      ExecLast(db, ss, k);
      FreshNext(m, b, k - 1);
      if ExecAll(db, ss[..k - 1]).Some? {
        TransactionStep(ExecAll(db, ss[..k - 1]).value, m, b, k - 1);
      }
    }
  }

  lemma EventIsFresh(db: Db, m: Bundles, b: Bundle, j: nat)
    requires ValidBundle(b) && Placed(m) && b.block.number !in m && j < |b.events|
    requires EventsMatch(db, With(m, b, |b.transactions|, j))
    ensures KeyOf(b.events[j]) !in db.events
  {
    var key := KeyOf(b.events[j]);
    assert EventFits(b, b.events[j]);
    assert forall n | n in m :: !HasKey(m[n], key);
    assert !PartHasKey(b, j, key);
    HoldsKeyWith(m, b, |b.transactions|, j, key);
  }

  lemma PermitsEvent(db: Db, m: Bundles, b: Bundle, j: nat)
    requires ValidBundle(b) && Placed(m) && b.block.number !in m && j < |b.events|
    requires Represents(db, With(m, b, |b.transactions|, j))
    ensures Permits(db, InsertEvent(KeyOf(b.events[j]), EventRowOf(b.events[j])))
  {
    EventIsFresh(db, m, b, j);
    assert EventFits(b, b.events[j]);
    var t := b.transactions[b.events[j].transactionIndex];
    assert b.transactions[..|b.transactions|] == b.transactions;
    assert t in With(m, b, |b.transactions|, j)[b.block.number].transactions;
    assert b.block.number in db.blocks.Keys;
  }

  lemma EventStep(db: Db, m: Bundles, b: Bundle, j: nat)
    requires ValidBundle(b) && Placed(m) && b.block.number !in m && j < |b.events|
    requires Represents(db, With(m, b, |b.transactions|, j))
    ensures var r := Exec(db, InsertEvent(KeyOf(b.events[j]), EventRowOf(b.events[j])));
            r.Some? && Represents(r.value, With(m, b, |b.transactions|, j + 1))
  {
    PermitsEvent(db, m, b, j);
    InsertEventRepresents(db, With(m, b, |b.transactions|, j), b.block.number, b.events[j]);
    WithNextEvent(m, b, j);
  }

  /** Once the transactions are in, no event can violate a constraint. */
  lemma LastEventInserted(db: Db, prev: Db, m: Bundles, b: Bundle, j: nat)
    requires ValidBundle(b) && Placed(m) && b.block.number !in m && 0 < j <= |b.events|
    requires ExecAll(db, EventStatements(b.events)[..j - 1]) == Some(prev)
    requires Represents(prev, With(m, b, |b.transactions|, j - 1))
    ensures var r := ExecAll(db, EventStatements(b.events)[..j]);
            r.Some? && Represents(r.value, With(m, b, |b.transactions|, j))
  {
    ExecLast(db, EventStatements(b.events), j);
    EventStep(prev, m, b, j - 1);
  }

  lemma {:induction false} EventsInserted(db: Db, m: Bundles, b: Bundle, j: nat)
    requires ValidBundle(b) && Placed(m) && b.block.number !in m && j <= |b.events|
    requires Represents(db, With(m, b, |b.transactions|, 0))
    ensures var r := ExecAll(db, EventStatements(b.events)[..j]);
            r.Some? && Represents(r.value, With(m, b, |b.transactions|, j))
  {
    if j > 0 {
      EventsInserted(db, m, b, j - 1);
      LastEventInserted(db, ExecAll(db, EventStatements(b.events)[..j - 1]).value, m, b, j);
    }
  }

  /** The bundle clashes with nothing stored: not its number, its hash nor any of its transactions. */
  ghost predicate FreshIn(m: Bundles, b: Bundle) {
    && b.block.number !in m
    && (forall k | k in m :: m[k].block.hash != b.block.hash)
    && FreshUpTo(m, b, |b.transactions|)
  }

  lemma PermitsBlock(db: Db, m: Bundles, b: Block)
    requires BlocksMatch(db, m) && InUint256(b.baseFee, false) && b.transactionCount >= 0
    ensures Permits(db, InsertBlock(b.number, BlockRowOf(b))) <==>
            b.number !in m && forall k | k in m :: m[k].block.hash != b.hash
  {
    assert forall k :: k in db.blocks <==> k in m by {
      assert forall k :: k in db.blocks.Keys <==> k in m.Keys;
    }
    assert forall k | k in m :: db.blocks[k].hash == m[k].block.hash;
  }

  lemma BlockInserted(db: Db, m: Bundles, b: Bundle)
    requires Represents(db, m) && InUint256(b.block.baseFee, false) && b.block.transactionCount >= 0
    ensures var r := Exec(db, InsertBlock(b.block.number, BlockRowOf(b.block)));
            && (r.Some? <==> b.block.number !in m && forall k | k in m :: m[k].block.hash != b.block.hash)
            && (r.Some? ==> Represents(r.value, With(m, b, 0, 0)))
  {
    PermitsBlock(db, m, b.block);
    if b.block.number !in m {
      InsertBlockRepresents(db, m, b.block);
    }
  }

  lemma ExecBundle(db: Db, b: Bundle)
    ensures var s := Exec(db, InsertBlock(b.block.number, BlockRowOf(b.block)));
            ExecAll(db, BundleStatements(b)) ==
            if s.None? then None else
            var t := ExecAll(s.value, TransactionStatements(b.transactions));
            if t.None? then None else ExecAll(t.value, EventStatements(b.events))
  {
    var block := [InsertBlock(b.block.number, BlockRowOf(b.block))];
    ExecConcat(db, block + TransactionStatements(b.transactions), EventStatements(b.events));
    ExecConcat(db, block, TransactionStatements(b.transactions));
    assert ExecAll(db, block) == Exec(db, block[0]) by {
      assert block[..0] == [];
      ExecLast(db, block, 1);
      assert block[..1] == block;
    }
  }

  /** A whole bundle goes in exactly when it clashes with nothing stored. */
  lemma AllTransactionsInserted(db: Db, m: Bundles, b: Bundle)
    requires ValidBundle(b) && BundleInRange(b) && Placed(m) && b.block.number !in m && Represents(db, With(m, b, 0, 0))
    ensures var r := ExecAll(db, TransactionStatements(b.transactions));
            && (r.Some? <==> FreshUpTo(m, b, |b.transactions|))
            && (r.Some? ==> Represents(r.value, With(m, b, |b.transactions|, 0)))
  {
    TransactionsInserted(db, m, b, |b.transactions|);
    assert TransactionStatements(b.transactions)[..|b.transactions|] == TransactionStatements(b.transactions);
  }

  lemma AllEventsInserted(db: Db, m: Bundles, b: Bundle)
    requires ValidBundle(b) && Placed(m) && b.block.number !in m && Represents(db, With(m, b, |b.transactions|, 0))
    ensures var r := ExecAll(db, EventStatements(b.events));
            r.Some? && Represents(r.value, m[b.block.number := b])
  {
    EventsInserted(db, m, b, |b.events|);
    assert EventStatements(b.events)[..|b.events|] == EventStatements(b.events);
    assert b.transactions[..|b.transactions|] == b.transactions && b.events[..|b.events|] == b.events;
  }

  lemma BundleInserted(db: Db, m: Bundles, b: Bundle)
    requires Represents(db, m) && Placed(m) && ValidBundle(b) && BundleInRange(b)
    ensures var r := ExecAll(db, BundleStatements(b));
            && (r.Some? <==> FreshIn(m, b))
            && (r.Some? ==> Represents(r.value, m[b.block.number := b]))
  {
    ExecBundle(db, b);
    BlockInserted(db, m, b);
    var s := Exec(db, InsertBlock(b.block.number, BlockRowOf(b.block)));
    if s.Some? {
      AllTransactionsInserted(s.value, m, b);
      var t := ExecAll(s.value, TransactionStatements(b.transactions));
      if t.Some? {
        AllEventsInserted(t.value, m, b);
      }
    }
  }
}
