/**
 * Incremental synchronization against a full reload.  Here the last cycle uses the honest form of
 * the endpoint, one fixed view of the chain; the cycles before it stay adversarial.  The one thing
 * asked of all answers is that a block hash determines the block: its number, its parent and its
 * transactions and logs.
 */
module SyncRefinement {
  import opened Domain
  import opened Chain
  import opened Memory
  import opened Syncer
  import opened SyncSafety
  import Ranger

  /** The block that a hash stands for. */
  type World = Hash -> Bundle

  ghost predicate Determined(w: World, b: Bundle) {
    Content(b) == w(b.block.hash)
  }

  ghost predicate Consistent(w: World, m: Bundles) {
    forall n | n in m :: Determined(w, m[n])
  }

  ghost predicate Respects(w: World, env: Env) {
    forall n: uint64 | env.fetch(n).Ok? :: Determined(w, env.fetch(n).value)
  }

  /** One fixed chain, from height 0 to `top`. */
  datatype View = View(chain: uint64 -> Bundle, top: uint64) {
    function Head(): ChainTip {
      ChainTip(top, chain(top).block.hash)
    }
  }

  function WindowOf(v: View, window: uint64): (m: Bundles)
    requires window >= 1
    ensures forall n: uint64 :: n in m <==> WindowStart(v.top, window) <= n <= v.top
  {
    map n: uint64 | WindowStart(v.top, window) <= n <= v.top :: v.chain(n)
  }

  /** The view is a chain of blocks, each of which its hash stands for. */
  ghost predicate LinkedView(w: World, v: View) {
    && (forall n: uint64 | n <= v.top :: v.chain(n).block.number == n && Determined(w, v.chain(n)))
    && (forall a: uint64, b: uint64 | b == a + 1 && b <= v.top :: v.chain(b).block.parentHash == v.chain(a).block.hash)
  }

  ghost predicate ServesHeaders(env: Env, v: View) {
    && env.head == HeaderFound(Header(Some(v.top), v.chain(v.top).block.hash))
    && (forall n: uint64 | n <= v.top :: env.header(n) == HeaderFound(Header(Some(n), v.chain(n).block.hash)))
    && (forall n: uint64 :: !env.hashCancelled(n))
  }

  ghost predicate ServesBlocks(env: Env, v: View) {
    forall n: uint64 | n <= v.top ::
      env.fetch(n).Ok? && Content(env.fetch(n).value) == Content(v.chain(n))
  }

  /** Every answer of the cycle comes from the view, and no call is cancelled. */
  ghost predicate Serves(env: Env, v: View) {
    && ServesHeaders(env, v)
    && ServesBlocks(env, v)
    && !env.tipCancelled && !env.fetchCancelled && !env.applyCancelled
  }

  ghost predicate SameContents(m: Bundles, r: Bundles) {
    m.Keys == r.Keys && forall n | n in m :: Content(m[n]) == Content(r[n])
  }

  lemma ContentIsValid(a: Bundle, b: Bundle)
    requires Content(a) == Content(b)
    ensures ValidBundle(a) <==> ValidBundle(b)
    ensures TxHashes(a) == TxHashes(b)
    ensures a.block.number == b.block.number && a.block.hash == b.block.hash && a.block.parentHash == b.block.parentHash
  {
    assert a.transactions == b.transactions && a.events == b.events;
    assert a.block.number == b.block.number && a.block.hash == b.block.hash;
    assert forall i | 0 <= i < |a.transactions| :: TransactionFits(a, i) <==> TransactionFits(b, i);
    assert forall e :: EventFits(a, e) <==> EventFits(b, e);
  }

  lemma ContentsAreChain(m: Bundles, r: Bundles)
    requires SameContents(m, r) && ValidChain(r)
    ensures ValidChain(m)
  {
    forall n | n in m
      ensures ValidBundle(m[n]) <==> ValidBundle(r[n])
      ensures TxHashes(m[n]) == TxHashes(r[n])
      ensures m[n].block.number == r[n].block.number && m[n].block.hash == r[n].block.hash
      ensures m[n].block.parentHash == r[n].block.parentHash
    {
      ContentIsValid(m[n], r[n]);
    }
  }

  lemma ContentsAgreeOnChain(m: Bundles, r: Bundles)
    requires SameContents(m, r)
    ensures ValidChain(m) <==> ValidChain(r)
  {
    if ValidChain(r) {
      ContentsAreChain(m, r);
    }
    if ValidChain(m) {
      ContentsAreChain(r, m);
    }
  }

  lemma BlocksAreAnswers(env: Env, from: uint64, head: ChainTip)
    requires from <= head.number && Suffix(env, from, head).Ok?
    ensures forall i | 0 <= i < |Suffix(env, from, head).value| ::
              env.fetch(from + i) == Ok(Suffix(env, from, head).value[i])
  {
    var a := Answers(env, from, head.number);
    assert forall i | 0 <= i < |a| :: a[i] == env.fetch(from + i) && a[i].Ok?;
  }

  lemma SplicedIsConsistent(w: World, env: Env,
                            m: Bundles, r: Bundles, retainFrom: uint64, from: uint64, top: uint64, blocks: seq<Bundle>)
    requires Spliced(m, r, retainFrom, from, top, blocks) && Consistent(w, m) && Respects(w, env)
    requires forall i | 0 <= i < |blocks| :: env.fetch(from + i) == Ok(blocks[i])
    ensures Consistent(w, r)
  {
    forall n | n in r ensures Determined(w, r[n]) {
      if n >= from {
        assert env.fetch(from + (n - from)) == Ok(blocks[n - from]);
      }
    }
  }

  lemma SuffixIsConsistent(w: World, env: Env, m: Bundles, r: Bundles, retainFrom: uint64, from: uint64, head: ChainTip)
    requires Respects(w, env) && Consistent(w, m) && Suffix(env, from, head).Ok?
    requires Spliced(m, r, retainFrom, from, head.number, Suffix(env, from, head).value)
    ensures Consistent(w, r)
  {
    if from <= head.number {
      BlocksAreAnswers(env, from, head);
    }
    SplicedIsConsistent(w, env, m, r, retainFrom, from, head.number, Suffix(env, from, head).value);
  }

  lemma CycleIsConsistent(w: World, c: Config, s: Ledger, env: Env)
    requires Respects(w, env) && Consistent(w, s.bundles) && SyncCycle(s, c, env).Ok?
    ensures Consistent(w, SyncCycle(s, c, env).value.ledger.bundles)
  {
    var d := TakeApart(s, c, env);
    CycleContents(s, c, env, d);
    SuffixIsConsistent(w, env, s.bundles, Candidate(s.bundles, UpdateOf(c, env, d)),
                       WindowStart(d.head.number, c.blockWindow), d.plan.from, d.head);
  }

  /** Stores reached through answers that respect the hashes respect them as well. */
  lemma {:induction false} RunIsConsistent(w: World, c: Config, envs: seq<Env>)
    requires forall i | 0 <= i < |envs| :: Respects(w, envs[i])
    ensures Consistent(w, After(c, envs).bundles)
  {
    if envs != [] {
      RunIsConsistent(w, c, envs[..|envs| - 1]);
      if SyncCycle(After(c, envs[..|envs| - 1]), c, envs[|envs| - 1]).Ok? {
        CycleIsConsistent(w, c, After(c, envs[..|envs| - 1]), envs[|envs| - 1]);
      }
    }
  }

  /** Where a stored chain and the view agree on a hash, they agree on everything below it. */
  lemma {:induction false} AgreementGoesDown(w: World, v: View, m: Bundles, k: uint64, n: uint64)
    requires LinkedView(w, v) && ValidChain(m) && Consistent(w, m)
    requires k in m && n in m && n <= k <= v.top && m[k].block.hash == v.chain(k).block.hash
    ensures m[n].block.hash == v.chain(n).block.hash
    ensures Content(m[n]) == Content(v.chain(n))
    decreases k
  {
    assert Determined(w, m[k]) && Determined(w, v.chain(k));
    if n < k {
      var below: uint64 := k - 1;
      assert n <= below <= k;
      assert Content(m[k]).block.parentHash == Content(v.chain(k)).block.parentHash;
      assert v.chain(k).block.parentHash == v.chain(below).block.hash;
      AgreementGoesDown(w, v, m, below, n);
    }
  }

  /** Height `k` was read on both sides and the two hashes differ. */
  ghost predicate Differs(m: Bundles, env: Env, tip: ChainTip, head: ChainTip, k: uint64) {
    && StoredHash(m, env, tip, k).Ok? && ChainHash(env, k, head).Ok?
    && StoredHash(m, env, tip, k).value != ChainHash(env, k, head).value
  }

  /** Every height from `number` down to just above `bottom` differs, and the search cannot go below. */
  ghost predicate Exhausted(m: Bundles, env: Env, tip: ChainTip, head: ChainTip, retainFrom: uint64, bottom: int,
                            number: uint64)
  {
    && retainFrom - 1 <= bottom <= number
    && (bottom >= retainFrom ==> StoredHash(m, env, tip, bottom) == Err(NotFound))
    && forall k: uint64 | bottom < k <= number :: Differs(m, env, tip, head, k)
  }

  /**
   * The search returns the highest agreeing height: it agrees, every height above it was read and
   * differs, and None means that every height differs down to the window start or to a height the
   * store does not hold.
   */
  lemma {:induction false} AncestorIsHighestAgreement(
    m: Bundles, env: Env, tip: ChainTip, head: ChainTip, retainFrom: uint64, number: uint64)
    requires retainFrom <= number && AncestorFrom(m, env, tip, head, retainFrom, number).Ok?
    ensures var r := AncestorFrom(m, env, tip, head, retainFrom, number).value;
            && (r.Some? ==>
                  && StoredHash(m, env, tip, r.value.number) == Ok(r.value.hash)
                  && ChainHash(env, r.value.number, head) == Ok(r.value.hash)
                  && forall k: uint64 | r.value.number < k <= number :: Differs(m, env, tip, head, k))
            && (r.None? ==> exists bottom :: Exhausted(m, env, tip, head, retainFrom, bottom, number))
    decreases number
  {
    var stored := StoredHash(m, env, tip, number);
    if stored == Err(NotFound) {
      assert Exhausted(m, env, tip, head, retainFrom, number, number);
    } else if stored != ChainHash(env, number, head) {
      assert Differs(m, env, tip, head, number);
      if number == retainFrom {
        assert Exhausted(m, env, tip, head, retainFrom, retainFrom as int - 1, number);
      } else {
        AncestorIsHighestAgreement(m, env, tip, head, retainFrom, number - 1);
        if AncestorFrom(m, env, tip, head, retainFrom, number).value.None? {
          var bottom :| Exhausted(m, env, tip, head, retainFrom, bottom, number - 1);
          assert Exhausted(m, env, tip, head, retainFrom, bottom, number);
        }
      }
    }
  }

  /** Against the view the search never fails, and it splits the stored window. */
  lemma {:induction false} HonestAncestor(env: Env, v: View, m: Bundles, retainFrom: uint64, number: uint64)
    requires ServesHeaders(env, v)
    requires m != map[] && retainFrom <= number <= v.top && forall n: uint64 | retainFrom <= n <= number :: n in m
    ensures var r := AncestorFrom(m, env, TipOf(m).value, v.Head(), retainFrom, number);
            && r.Ok?
            && (r.value.Some? ==>
                  && r.value.value == ChainTip(r.value.value.number, v.chain(r.value.value.number).block.hash)
                  && m[r.value.value.number].block.hash == r.value.value.hash
                  && forall n: uint64 | r.value.value.number < n <= number :: m[n].block.hash != v.chain(n).block.hash)
            && (r.value.None? ==> forall n: uint64 | retainFrom <= n <= number ::
                   m[n].block.hash != v.chain(n).block.hash)
    decreases number
  {
    assert number in m;
    assert StoredHash(m, env, TipOf(m).value, number) == Ok(m[number].block.hash);
    assert ChainHash(env, number, v.Head()) == Ok(v.chain(number).block.hash);
    if m[number].block.hash != v.chain(number).block.hash && number > retainFrom {
      HonestAncestor(env, v, m, retainFrom, number - 1);
    }
  }

  /** The heights kept by the plan agree with the view; the stored heights it replaces do not. */
  ghost predicate Splits(m: Bundles, v: View, retainFrom: uint64, from: uint64) {
    && (forall n | n in m && retainFrom <= n < from :: Content(m[n]) == Content(v.chain(n)))
    && (forall n | n in m && from <= n <= v.top :: m[n].block.hash != v.chain(n).block.hash)
  }

  /** The store holds the heights from `retainFrom` up to `from`, as the view has them. */
  ghost predicate Agrees(m: Bundles, v: View, retainFrom: uint64, from: uint64) {
    forall n: uint64 | retainFrom <= n < from :: n in m && Content(m[n]) == Content(v.chain(n))
  }

  lemma PlanFollowsSearch(m: Bundles, env: Env, head: ChainTip, retainFrom: uint64)
    requires m != map[] && retainFrom <= TipOf(m).value.number <= head.number && TipOf(m) != Some(head)
    requires head.number - retainFrom < MAX_BLOCK_WINDOW
    requires var r := AncestorFrom(m, env, TipOf(m).value, head, retainFrom, TipOf(m).value.number);
             r.Ok? && (r.value.Some? ==> r.value.value.number < MAX_UINT64)
    ensures var r := AncestorFrom(m, env, TipOf(m).value, head, retainFrom, TipOf(m).value.number);
            var p := ReplacementStart(m, env, TipOf(m), head, retainFrom);
            && p.Ok? && !p.value.mode.FullReload?
            && p.value.from == if r.value.Some? then r.value.value.number + 1 else retainFrom
  {
    assert Min(TipOf(m).value.number, head.number) == TipOf(m).value.number;
  }

  lemma AgreementBelow(w: World, v: View, m: Bundles, k: uint64)
    requires LinkedView(w, v) && ValidChain(m) && Consistent(w, m)
    requires k in m && k <= v.top && m[k].block.hash == v.chain(k).block.hash
    ensures forall n | n in m && n <= k :: Content(m[n]) == Content(v.chain(n))
  {
    forall n | n in m && n <= k ensures Content(m[n]) == Content(v.chain(n)) {
      AgreementGoesDown(w, v, m, k, n);
    }
  }

  lemma HonestSplit(w: World, c: Config, env: Env, v: View, m: Bundles, retainFrom: uint64)
    requires 1 <= c.blockWindow <= MAX_BLOCK_WINDOW && LinkedView(w, v) && ServesHeaders(env, v)
    requires ValidChain(m) && ExactWindow(m, c.blockWindow) && Consistent(w, m)
    requires m != map[] && retainFrom == WindowStart(v.top, c.blockWindow)
    requires retainFrom <= TipOf(m).value.number <= v.top && TipOf(m) != Some(v.Head())
    ensures var r := AncestorFrom(m, env, TipOf(m).value, v.Head(), retainFrom, TipOf(m).value.number);
            && r.Ok?
            && (r.value.Some? ==> r.value.value.number < v.top)
            && Splits(m, v, retainFrom, if r.value.Some? then r.value.value.number + 1 else retainFrom)
  {
    var tip := TipOf(m).value;
    assert WindowStart(tip.number, c.blockWindow) <= retainFrom;
    HonestAncestor(env, v, m, retainFrom, tip.number);
    var r := AncestorFrom(m, env, tip, v.Head(), retainFrom, tip.number);
    if r.value.Some? {
      AgreementBelow(w, v, m, r.value.value.number);
    }
  }

  /** What a cycle plans against the view: outside the two loading modes it splits the window. */
  lemma HonestPlan(w: World, c: Config, env: Env, v: View, m: Bundles)
    requires 1 <= c.blockWindow <= MAX_BLOCK_WINDOW && LinkedView(w, v) && ServesHeaders(env, v)
    requires ValidChain(m) && ExactWindow(m, c.blockWindow) && Consistent(w, m)
    ensures var retainFrom := WindowStart(v.top, c.blockWindow);
            var r := ReplacementStart(m, env, TipOf(m), v.Head(), retainFrom);
            && (r.Ok? <==> !(TipOf(m) == Some(v.Head()) && v.top == MAX_UINT64))
            && (r.Ok? ==>
                  && Agrees(m, v, retainFrom, r.value.from)
                  && (!r.value.mode.FullReload? ==> Splits(m, v, retainFrom, r.value.from)))
  {
    var retainFrom := WindowStart(v.top, c.blockWindow);
    var tip := TipOf(m);
    if tip.Some? && retainFrom <= tip.value.number <= v.top {
      assert WindowStart(tip.value.number, c.blockWindow) <= retainFrom;
      if tip == Some(v.Head()) {
        AgreementBelow(w, v, m, v.top);
      } else {
        HonestSplit(w, c, env, v, m, retainFrom);
        PlanFollowsSearch(m, env, v.Head(), retainFrom);
      }
    }
  }

  /** The blocks are those of the view from height `from` on. */
  ghost predicate BlocksAgree(blocks: seq<Bundle>, v: View, from: uint64) {
    forall n: uint64 | from <= n < from + |blocks| :: Content(blocks[n - from]) == Content(v.chain(n))
  }

  ghost predicate AnswersView(a: Ranger.Answers, v: View, from: uint64) {
    && from + |a| == v.top + 1
    && forall n: uint64 | from <= n <= v.top :: a[n - from].Ok? && Content(a[n - from].value) == Content(v.chain(n))
  }

  lemma RangeOfView(w: World, a: Ranger.Answers, v: View, from: uint64)
    requires LinkedView(w, v) && AnswersView(a, v, from)
    ensures Ranger.RangeResult(a, from, false).Ok?
    ensures |Ranger.RangeResult(a, from, false).value| == |a|
    ensures BlocksAgree(Ranger.RangeResult(a, from, false).value, v, from)
  {
    forall i | 0 <= i < |a| ensures a[i].Ok? && Content(a[i].value) == Content(v.chain(from + i)) {
      var n: uint64 := from + i;
      assert Determined(w, v.chain(n));
      assert a[n - from].Ok? && Content(a[n - from].value) == Content(v.chain(n));
    }
    var blocks := seq(|a|, i requires 0 <= i < |a| => a[i].value);
    forall i | 0 <= i < |a|
      ensures blocks[i].block.number == from + i
      ensures blocks[i].block.hash == v.chain(from + i).block.hash
      ensures blocks[i].block.parentHash == v.chain(from + i).block.parentHash
    {
      ContentIsValid(blocks[i], v.chain(from + i));
    }
    assert Ranger.ValidRange(blocks, from);
  }

  lemma ServedAnswers(env: Env, v: View, from: uint64)
    requires ServesBlocks(env, v) && from <= v.top
    ensures AnswersView(Answers(env, from, v.top), v, from)
  {
    var a := Answers(env, from, v.top);
    forall n: uint64 | from <= n <= v.top
      ensures a[n - from].Ok? && Content(a[n - from].value) == Content(v.chain(n))
    {
      assert a[n - from] == env.fetch(n);
    }
  }

  lemma HonestSuffix(w: World, env: Env, v: View, from: uint64)
    requires LinkedView(w, v) && !env.fetchCancelled
    requires from <= v.top && v.top - from < MAX_BLOCK_WINDOW
    requires AnswersView(Answers(env, from, v.top), v, from)
    ensures Suffix(env, from, v.Head()).Ok?
    ensures BlocksAgree(Suffix(env, from, v.Head()).value, v, from)
  {
    RangeOfView(w, Answers(env, from, v.top), v, from);
    var blocks := FetchRange(env, from, v.top).value;
    assert Content(blocks[v.top - from]) == Content(v.chain(v.top));
  }

  lemma SplicedIsWindow(m: Bundles, r: Bundles, v: View, window: uint64, from: uint64, blocks: seq<Bundle>)
    requires window >= 1
    requires Spliced(m, r, WindowStart(v.top, window), from, v.top, blocks)
    requires Agrees(m, v, WindowStart(v.top, window), from)
    requires BlocksAgree(blocks, v, from)
    ensures SameContents(r, WindowOf(v, window))
  {
    assert forall n | n in r :: Content(r[n]) == Content(v.chain(n));
    assert forall n: uint64 :: n in r <==> WindowStart(v.top, window) <= n <= v.top;
    assert r.Keys == WindowOf(v, window).Keys;
  }

  lemma UpdateCompletesWindow(m: Bundles, u: CanonicalUpdate, v: View, window: uint64)
    requires window >= 1 && u.retainFrom == WindowStart(v.top, window)
    requires u.retainFrom <= u.replaceFrom <= v.top + 1 && |u.blocks| == v.top + 1 - u.replaceFrom
    requires ValidReplacement(u) && Agrees(m, v, u.retainFrom, u.replaceFrom)
    requires BlocksAgree(u.blocks, v, u.replaceFrom)
    ensures SameContents(Candidate(m, u), WindowOf(v, window))
  {
    CandidateIsSpliced(m, u, v.top);
    SplicedIsWindow(m, Candidate(m, u), v, window, u.replaceFrom, u.blocks);
  }

  lemma HonestBlocks(w: World, env: Env, v: View, from: uint64) returns (blocks: seq<Bundle>)
    requires LinkedView(w, v) && ServesBlocks(env, v) && !env.fetchCancelled
    requires from <= v.top + 1 && v.top - from < MAX_BLOCK_WINDOW
    ensures Suffix(env, from, v.Head()) == Ok(blocks) && |blocks| == v.top + 1 - from
    ensures forall i | 0 <= i < |blocks| :: blocks[i].block.number == from + i
    ensures BlocksAgree(blocks, v, from)
  {
    blocks := [];
    if from <= v.top {
      ServedAnswers(env, v, from);
      HonestSuffix(w, env, v, from);
      SuffixIsRange(env, from, v.Head());
      blocks := Suffix(env, from, v.Head()).value;
    }
  }

  /** Against the view the cycle decides on the blocks that complete the window. */
  lemma HonestDecision(w: World, c: Config, env: Env, v: View, m: Bundles) returns (d: Decision)
    requires 1 <= c.blockWindow <= MAX_BLOCK_WINDOW && LinkedView(w, v)
    requires ServesHeaders(env, v) && ServesBlocks(env, v) && !env.fetchCancelled
    requires ValidChain(m) && ExactWindow(m, c.blockWindow) && Consistent(w, m)
    requires !(TipOf(m) == Some(v.Head()) && v.top == MAX_UINT64)
    ensures Decided(m, c, env, d) && d.head == v.Head()
    ensures |d.blocks| == v.top + 1 - d.plan.from
    ensures ValidReplacement(UpdateOf(c, env, d)) && BlocksAgree(d.blocks, v, d.plan.from)
    ensures WindowStart(v.top, c.blockWindow) <= d.plan.from <= v.top + 1
    ensures Agrees(m, v, WindowStart(v.top, c.blockWindow), d.plan.from)
  {
    var retainFrom := WindowStart(v.top, c.blockWindow);
    HonestPlan(w, c, env, v, m);
    PlanStaysInWindow(m, env, v.Head(), retainFrom);
    var plan := ReplacementStart(m, env, TipOf(m), v.Head(), retainFrom).value;
    var blocks := HonestBlocks(w, env, v, plan.from);
    d := Decision(v.Head(), TipOf(m), plan, blocks);
  }

  /** The update of such a decision leaves the view's window, and is accepted exactly when that is a valid chain. */
  lemma HonestUpdateIsAccepted(c: Config, v: View, s: Ledger, u: CanonicalUpdate)
    requires c.blockWindow >= 1 && c.chainID != 0
    requires s.chainID == 0 || s.chainID == c.chainID
    requires u.chainID == c.chainID && u.retainFrom == WindowStart(v.top, c.blockWindow)
    requires u.retainFrom <= u.replaceFrom <= v.top + 1 && |u.blocks| == v.top + 1 - u.replaceFrom
    requires ValidReplacement(u) && Agrees(s.bundles, v, u.retainFrom, u.replaceFrom)
             && BlocksAgree(u.blocks, v, u.replaceFrom)
    ensures Accepts(s, u) <==> ValidChain(WindowOf(v, c.blockWindow))
    ensures SameContents(Applied(s, u).bundles, WindowOf(v, c.blockWindow))
  {
    UpdateCompletesWindow(s.bundles, u, v, c.blockWindow);
    ContentsAgreeOnChain(Candidate(s.bundles, u), WindowOf(v, c.blockWindow));
  }

  /** A store that already ends in the view's head at the largest height cannot plan past it. */
  ghost predicate AtLastHeight(m: Bundles, v: View) {
    TipOf(m) == Some(v.Head()) && v.top == MAX_UINT64
  }

  lemma LastHeightFails(c: Config, env: Env, v: View, s: Ledger)
    requires ConfigError(c) == None && Serves(env, v) && AtLastHeight(s.bundles, v)
    ensures SyncCycle(s, c, env) == Err(InconsistentBlockData)
  {
    assert Located(env.head) == Ok(v.Head());
  }

  /**
   * Against the view a cycle from any invariant store succeeds exactly when the view's window is a
   * valid chain and the store is not at the last height; it then leaves that window.
   */
  lemma HonestCycle(w: World, c: Config, env: Env, v: View, s: Ledger)
    requires ConfigError(c) == None && LinkedView(w, v) && Serves(env, v)
    requires Invariant(s, c) && Consistent(w, s.bundles)
    ensures SyncCycle(s, c, env).Ok? <==> ValidChain(WindowOf(v, c.blockWindow)) && !AtLastHeight(s.bundles, v)
    ensures SyncCycle(s, c, env).Ok? ==>
              var t := SyncCycle(s, c, env).value.ledger;
              SameContents(t.bundles, WindowOf(v, c.blockWindow)) && t.chainID == c.chainID && t.lastSyncedAt == env.now
    ensures SyncCycle(s, c, env).Err? ==>
              SyncCycle(s, c, env).error
              == if AtLastHeight(s.bundles, v) then InconsistentBlockData else InvalidCanonicalUpdate
  {
    if AtLastHeight(s.bundles, v) {
      LastHeightFails(c, env, v, s);
    } else {
      var d := HonestDecision(w, c, env, v, s.bundles);
      HonestUpdateIsAccepted(c, v, s, UpdateOf(c, env, d));
      PutTogether(s, c, env, d);
    }
  }

  /**
   * Incremental synchronization refines full reload: after any run of cycles, whatever their heads
   * and whether they failed, one cycle on the view does what a first load does.  Both succeed and
   * leave the same contents, or both fail alike; only at the last height may the first fail alone.
   */
  lemma IncrementalIsReload(w: World, c: Config, envs: seq<Env>, env: Env, v: View)
    requires ConfigError(c) == None
    requires forall i | 0 <= i < |envs| :: Respects(w, envs[i])
    requires LinkedView(w, v) && Serves(env, v)
    ensures var incremental, reload := SyncCycle(After(c, envs), c, env), SyncCycle(EMPTY_LEDGER, c, env);
            && (reload.Ok? <==> ValidChain(WindowOf(v, c.blockWindow)))
            && (incremental.Ok? <==> reload.Ok? && !AtLastHeight(After(c, envs).bundles, v))
            && (incremental.Err? && reload.Err? && !AtLastHeight(After(c, envs).bundles, v) ==>
                   incremental.error == reload.error)
            && (incremental.Ok? ==>
                  && SameContents(incremental.value.ledger.bundles, reload.value.ledger.bundles)
                  && incremental.value.ledger.chainID == reload.value.ledger.chainID
                  && incremental.value.ledger.lastSyncedAt == reload.value.ledger.lastSyncedAt)
  {
    RunKeepsInvariant(c, envs);
    RunIsConsistent(w, c, envs);
    RunKeepsInvariant(c, []);
    HonestCycle(w, c, env, v, After(c, envs));
    HonestCycle(w, c, env, v, EMPTY_LEDGER);
  }

  lemma NothingCanonicalIsPlanned(w: World, c: Config, env: Env, v: View, m: Bundles, plan: Plan)
    requires 1 <= c.blockWindow <= MAX_BLOCK_WINDOW && LinkedView(w, v) && ServesHeaders(env, v)
    requires ValidChain(m) && ExactWindow(m, c.blockWindow) && Consistent(w, m)
    requires ReplacementStart(m, env, TipOf(m), v.Head(), WindowStart(v.top, c.blockWindow)) == Ok(plan)
    requires !plan.mode.FullReload?
    ensures forall n | n in m && plan.from <= n <= v.top :: m[n].block.hash != v.chain(n).block.hash
    ensures forall n | n in m && WindowStart(v.top, c.blockWindow) <= n < plan.from ::
            Content(m[n]) == Content(v.chain(n))
  {
    HonestPlan(w, c, env, v, m);
  }

  /** Appending and reorganizing against the view fetch no block that is stored and still canonical. */
  lemma NothingCanonicalIsFetched(w: World, c: Config, env: Env, v: View, s: Ledger)
    requires ConfigError(c) == None && LinkedView(w, v) && Serves(env, v)
    requires Invariant(s, c) && Consistent(w, s.bundles)
    requires SyncCycle(s, c, env).Ok? && !SyncCycle(s, c, env).value.result.mode.FullReload?
    ensures var r := SyncCycle(s, c, env).value.result;
            && (forall n | n in s.bundles && r.replaceFrom <= n <= v.top ::
                  s.bundles[n].block.hash != v.chain(n).block.hash)
            && (forall n | n in s.bundles && r.fromBlock <= n < r.replaceFrom ::
                  Content(s.bundles[n]) == Content(v.chain(n)))
  {
    var d := TakeApart(s, c, env);
    NothingCanonicalIsPlanned(w, c, env, v, s.bundles, d.plan);
  }
}
