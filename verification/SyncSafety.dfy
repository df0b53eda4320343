/**
 * What every cycle and every run of cycles keeps.  All lemmas here use the adversarial form of the
 * endpoint: the environment is arbitrary, and may differ from cycle to cycle and from call to call.
 */
module SyncSafety {
  import opened Domain
  import opened Chain
  import opened Memory
  import opened Syncer
  import Ranger

  /** A successful cycle decided on `d`, and the store accepted the update. */
  ghost predicate Shape(s: Ledger, c: Config, env: Env, d: Decision) {
    && Decide(s.bundles, c, env) == Ok(d)
    && Accepts(s, UpdateOf(c, env, d))
    && SyncCycle(s, c, env) == Ok(Cycle(Applied(s, UpdateOf(c, env, d)), ResultOf(c, env, d)))
  }

  /** The parts of a decision. */
  ghost predicate Decided(m: Bundles, c: Config, env: Env, d: Decision)
    requires 1 <= c.blockWindow <= MAX_BLOCK_WINDOW
  {
    && Located(env.head) == Ok(d.head)
    && d.storedTip == TipOf(m)
    && ReplacementStart(m, env, TipOf(m), d.head, WindowStart(d.head.number, c.blockWindow)) == Ok(d.plan)
    && Suffix(env, d.plan.from, d.head) == Ok(d.blocks)
  }

  lemma DecisionParts(m: Bundles, c: Config, env: Env)
    requires Decide(m, c, env).Ok?
    ensures Decided(m, c, env, Decide(m, c, env).value)
  {
  }

  lemma TakeApart(s: Ledger, c: Config, env: Env) returns (d: Decision)
    requires SyncCycle(s, c, env).Ok?
    ensures 1 <= c.blockWindow <= MAX_BLOCK_WINDOW && ConfigError(c) == None
    ensures Shape(s, c, env, d) && Decided(s.bundles, c, env, d)
  {
    d := Decide(s.bundles, c, env).value;
    DecisionParts(s.bundles, c, env);
  }

  lemma PutTogether(s: Ledger, c: Config, env: Env, d: Decision)
    requires ConfigError(c) == None && !env.tipCancelled && !env.applyCancelled
    requires Decided(s.bundles, c, env, d)
    ensures Accepts(s, UpdateOf(c, env, d)) ==> Shape(s, c, env, d)
    ensures !Accepts(s, UpdateOf(c, env, d)) ==> SyncCycle(s, c, env) == Err(InvalidCanonicalUpdate)
  {
    assert Decide(s.bundles, c, env) == Ok(d);
  }

  /**
   * Where a plan may start: never below the window, never past the head unless the store is current,
   * and what it keeps of the store is really there.
   */
  lemma PlanStaysInWindow(m: Bundles, env: Env, head: ChainTip, retainFrom: uint64)
    requires retainFrom <= head.number && head.number - retainFrom < MAX_BLOCK_WINDOW
    requires ReplacementStart(m, env, TipOf(m), head, retainFrom).Ok?
    ensures var plan := ReplacementStart(m, env, TipOf(m), head, retainFrom).value;
            && retainFrom <= plan.from <= head.number + 1
            && (plan.mode.Current? <==> plan.from == head.number + 1)
            && (plan.mode.Current? ==> TipOf(m) == Some(head))
            && (plan.from > retainFrom ==> m != map[] && plan.from - 1 <= TipOf(m).value.number <= head.number)
  {
  }

  lemma SuffixIsRange(env: Env, from: uint64, head: ChainTip)
    requires from <= head.number && Suffix(env, from, head).Ok?
    ensures var blocks := Suffix(env, from, head).value;
            && Ranger.ValidRange(blocks, from)
            && |blocks| == head.number - from + 1
            && blocks[|blocks| - 1].block.hash == head.hash
  {
  }

  lemma SuffixEndsInHead(env: Env, from: uint64, head: ChainTip, blocks: seq<Bundle>)
    requires Suffix(env, from, head) == Ok(blocks)
    ensures from <= head.number ==> blocks != [] && blocks[|blocks| - 1].block.hash == head.hash
  {
  }

  /** `r` is `m` from `retainFrom` up to `from`, continued by `blocks` up to the height `top`. */
  ghost predicate Spliced(m: Bundles, r: Bundles, retainFrom: uint64, from: uint64, top: uint64, blocks: seq<Bundle>) {
    && retainFrom <= from <= top + 1
    && |blocks| == top + 1 - from
    && (forall n: uint64 :: n in r <==> (n in m && retainFrom <= n < from) || from <= n <= top)
    && (forall n | n in r && n < from :: r[n] == m[n])
    && (forall n | n in r && n >= from :: r[n] == blocks[n - from])
  }

  lemma CandidateIsSpliced(m: Bundles, u: CanonicalUpdate, top: uint64)
    requires ValidReplacement(u) && u.retainFrom <= u.replaceFrom <= top + 1
    requires |u.blocks| == top + 1 - u.replaceFrom
    ensures Spliced(m, Candidate(m, u), u.retainFrom, u.replaceFrom, top, u.blocks)
  {
    CandidateContents(m, u);
  }

  /** The heights and bundles of the store after a cycle. */
  lemma CycleContents(s: Ledger, c: Config, env: Env, d: Decision)
    requires 1 <= c.blockWindow <= MAX_BLOCK_WINDOW
    requires Decided(s.bundles, c, env, d) && ValidReplacement(UpdateOf(c, env, d))
    ensures Spliced(s.bundles, Candidate(s.bundles, UpdateOf(c, env, d)),
                    WindowStart(d.head.number, c.blockWindow), d.plan.from, d.head.number, d.blocks)
  {
    PlanStaysInWindow(s.bundles, env, d.head, WindowStart(d.head.number, c.blockWindow));
    CandidateIsSpliced(s.bundles, UpdateOf(c, env, d), d.head.number);
  }

  lemma SplicedTip(m: Bundles, r: Bundles, retainFrom: uint64, from: uint64, head: ChainTip, blocks: seq<Bundle>)
    requires Spliced(m, r, retainFrom, from, head.number, blocks)
    requires retainFrom <= head.number
    requires from <= head.number ==> blocks[|blocks| - 1].block.hash == head.hash
    requires from > head.number ==> TipOf(m) == Some(head)
    ensures TipOf(r) == Some(head)
  {
    assert IsHighest(r, head.number);
    TipIs(r, head.number);
  }

  lemma DecidedTip(m: Bundles, c: Config, env: Env, d: Decision, r: Bundles)
    requires 1 <= c.blockWindow <= MAX_BLOCK_WINDOW && Decided(m, c, env, d)
    requires Spliced(m, r, WindowStart(d.head.number, c.blockWindow), d.plan.from, d.head.number, d.blocks)
    ensures TipOf(r) == Some(d.head)
  {
    var retainFrom := WindowStart(d.head.number, c.blockWindow);
    PlanStaysInWindow(m, env, d.head, retainFrom);
    SuffixEndsInHead(env, d.plan.from, d.head, d.blocks);
    SplicedTip(m, r, retainFrom, d.plan.from, d.head, d.blocks);
  }

  /**
   * Torn-view safety: whatever the endpoint answers, a successful cycle leaves one contiguous,
   * hash-linked chain that ends in exactly the head it selected.
   */
  lemma SelectedHeadIsTip(s: Ledger, c: Config, env: Env)
    requires SyncCycle(s, c, env).Ok?
    ensures var cycle := SyncCycle(s, c, env).value;
            && ValidChain(cycle.ledger.bundles)
            && Located(env.head) == Ok(cycle.result.head)
            && TipOf(cycle.ledger.bundles) == Some(cycle.result.head)
  {
    var d := TakeApart(s, c, env);
    CycleContents(s, c, env, d);
    DecidedTip(s.bundles, c, env, d, Candidate(s.bundles, UpdateOf(c, env, d)));
  }

  /** The k-th ancestor of a block when every hash names its parent. */
  function Ancestor(parent: Hash -> Hash, h: Hash, k: nat): Hash {
    if k == 0 then h else parent(Ancestor(parent, h, k - 1))
  }

  lemma {:induction false} ChainOfAncestors(m: Bundles, parent: Hash -> Hash, tip: uint64, n: uint64)
    requires ValidChain(m) && tip in m && n in m && n <= tip
    requires forall k | k in m :: m[k].block.parentHash == parent(m[k].block.hash)
    ensures m[n].block.hash == Ancestor(parent, m[tip].block.hash, tip - n)
    decreases tip - n
  {
    if n < tip {
      var above: uint64 := n + 1;
      assert n <= above <= tip;
      ChainOfAncestors(m, parent, tip, above);
    }
  }

  lemma ChainBelowTip(m: Bundles, tip: ChainTip, parent: Hash -> Hash, n: uint64)
    requires ValidChain(m) && TipOf(m) == Some(tip) && n in m
    requires forall k | k in m :: m[k].block.parentHash == parent(m[k].block.hash)
    ensures n <= tip.number && m[n].block.hash == Ancestor(parent, tip.hash, tip.number - n)
  {
    ChainOfAncestors(m, parent, tip.number, n);
  }

  /** Every block stored after a cycle is the selected head's ancestor at its height. */
  lemma StoredBlocksAreAncestors(s: Ledger, c: Config, env: Env, parent: Hash -> Hash, n: uint64)
    requires SyncCycle(s, c, env).Ok?
    requires var m := SyncCycle(s, c, env).value.ledger.bundles;
             n in m && forall k | k in m :: m[k].block.parentHash == parent(m[k].block.hash)
    ensures var cycle := SyncCycle(s, c, env).value;
            && n <= cycle.result.head.number
            && cycle.ledger.bundles[n].block.hash
               == Ancestor(parent, cycle.result.head.hash, cycle.result.head.number - n)
  {
    SelectedHeadIsTip(s, c, env);
    var cycle := SyncCycle(s, c, env).value;
    ChainBelowTip(cycle.ledger.bundles, cycle.result.head, parent, n);
  }

  /** The store is empty or holds exactly the window that ends at its tip. */
  ghost predicate ExactWindow(m: Bundles, window: uint64)
    requires window >= 1
  {
    m == map[] ||
    var tip := TipOf(m).value.number;
    forall n: uint64 :: n in m <==> WindowStart(tip, window) <= n <= tip
  }

  lemma SplicedWindow(m: Bundles, r: Bundles, window: uint64, from: uint64, head: ChainTip, blocks: seq<Bundle>)
    requires window >= 1 && ExactWindow(m, window)
    requires Spliced(m, r, WindowStart(head.number, window), from, head.number, blocks)
    requires from > WindowStart(head.number, window) ==>
               m != map[] && from - 1 <= TipOf(m).value.number <= head.number
    requires TipOf(r) == Some(head)
    ensures ExactWindow(r, window)
  {
    var retainFrom := WindowStart(head.number, window);
    if from > retainFrom {
      assert WindowStart(TipOf(m).value.number, window) <= retainFrom;
    }
  }

  /** A cycle with an unchanged window keeps the window exact. */
  lemma CycleKeepsWindow(s: Ledger, c: Config, env: Env)
    requires SyncCycle(s, c, env).Ok? && c.blockWindow >= 1 && ExactWindow(s.bundles, c.blockWindow)
    ensures ExactWindow(SyncCycle(s, c, env).value.ledger.bundles, c.blockWindow)
  {
    var d := TakeApart(s, c, env);
    CycleContents(s, c, env, d);
    PlanStaysInWindow(s.bundles, env, d.head, WindowStart(d.head.number, c.blockWindow));
    SelectedHeadIsTip(s, c, env);
    SplicedWindow(s.bundles, Candidate(s.bundles, UpdateOf(c, env, d)), c.blockWindow, d.plan.from, d.head, d.blocks);
  }

  /** A store after a cycle; a failed cycle leaves it as it was. */
  ghost function Step(s: Ledger, c: Config, env: Env): (t: Ledger) {
    match SyncCycle(s, c, env)
    case Ok(cycle) => cycle.ledger
    case Err(_) => s
  }

  /** The store after a run of cycles, successful or not, from the empty store. */
  ghost function After(c: Config, envs: seq<Env>): (s: Ledger) {
    if envs == [] then EMPTY_LEDGER else Step(After(c, envs[..|envs| - 1]), c, envs[|envs| - 1])
  }

  ghost predicate Invariant(s: Ledger, c: Config) {
    && c.blockWindow >= 1
    && ValidChain(s.bundles)
    && ExactWindow(s.bundles, c.blockWindow)
    && (s.chainID == 0 || s.chainID == c.chainID)
    && (s.chainID == 0 ==> s.bundles == map[])
  }

  lemma InvariantIsKept(s: Ledger, c: Config, env: Env)
    requires Invariant(s, c) && SyncCycle(s, c, env).Ok?
    ensures Invariant(SyncCycle(s, c, env).value.ledger, c)
  {
    CycleKeepsWindow(s, c, env);
    SelectedHeadIsTip(s, c, env);
    var d := TakeApart(s, c, env);
  }

  /** Every reachable store satisfies the invariant. */
  lemma {:induction false} RunKeepsInvariant(c: Config, envs: seq<Env>)
    requires c.blockWindow >= 1
    ensures Invariant(After(c, envs), c)
  {
    if envs != [] {
      var before, env := After(c, envs[..|envs| - 1]), envs[|envs| - 1];
      RunKeepsInvariant(c, envs[..|envs| - 1]);
      if SyncCycle(before, c, env).Ok? {
        InvariantIsKept(before, c, env);
      }
    }
  }

  lemma {:induction false} IntervalSize(m: Bundles, low: int, high: int)
    requires 0 <= low <= high <= MAX_UINT64 + 1
    requires forall n: uint64 :: n in m <==> low <= n < high
    ensures |m| == high - low
    decreases high
  {
    if low == high {
      assert m == map[];
    } else {
      var top: uint64 := high - 1;
      var smaller := m - {top};
      IntervalSize(smaller, low, top);
      assert m.Keys == smaller.Keys + {top};
      assert |m| == |m.Keys| && |smaller| == |smaller.Keys|;
    }
  }

  /**
   * Window exactness over whole runs: a reachable store is empty or holds exactly the heights from
   * the window start to its tip, which are min(tip + 1, window) and never more than fifty blocks.
   */
  lemma ReachableStoreIsExactWindow(c: Config, envs: seq<Env>)
    requires ConfigError(c) == None
    ensures var m := After(c, envs).bundles;
            && ExactWindow(m, c.blockWindow)
            && |m| <= MAX_BLOCK_WINDOW
            && (m != map[] ==>
                  var tip := TipOf(m).value.number;
                  |m| == if tip + 1 < c.blockWindow then tip + 1 else c.blockWindow)
  {
    RunKeepsInvariant(c, envs);
    var m := After(c, envs).bundles;
    if m != map[] {
      var tip := TipOf(m).value.number;
      IntervalSize(m, WindowStart(tip, c.blockWindow), tip as int + 1);
    }
  }

  lemma WindowSize(m: Bundles, window: uint64)
    requires window >= 1 && m != map[] && ExactWindow(m, window)
    ensures |m| == TipOf(m).value.number - WindowStart(TipOf(m).value.number, window) + 1
  {
    var tip := TipOf(m).value.number;
    IntervalSize(m, WindowStart(tip, window), tip as int + 1);
  }

  lemma WindowCounts(m: Bundles, window: uint64, retainFrom: uint64)
    requires window >= 1 && m != map[] && ExactWindow(m, window)
    requires WindowStart(TipOf(m).value.number, window) <= retainFrom <= TipOf(m).value.number + 1
    ensures |m| - |Restrict(m, 0, retainFrom)| == TipOf(m).value.number + 1 - retainFrom
  {
    var tip := TipOf(m).value.number;
    var start := WindowStart(tip, window);
    IntervalSize(m, start, tip as int + 1);
    IntervalSize(Restrict(m, 0, retainFrom), start, retainFrom);
  }

  /** What a plan reports as replaced is the stored run it does not keep. */
  lemma PlanReportsReplaced(m: Bundles, env: Env, head: ChainTip, retainFrom: uint64)
    requires retainFrom <= head.number && head.number - retainFrom < MAX_BLOCK_WINDOW
    requires ReplacementStart(m, env, TipOf(m), head, retainFrom).Ok?
    ensures var plan := ReplacementStart(m, env, TipOf(m), head, retainFrom).value;
            && (plan.mode.InitialLoad? <==> m == map[])
            && (m != map[] && !plan.mode.FullReload? ==>
                  && retainFrom <= plan.from <= TipOf(m).value.number + 1 <= head.number + 1
                  && TipOf(m).value.number + 1 - plan.from
                     == if plan.reorg.Some? then plan.reorg.value.replacedBlockCount else 0)
            && (plan.reorg.Some? <==> plan.mode.Reorg?)
  {
  }

  /** The stored blocks that are neither pruned nor reported as replaced. */
  lemma KeptCount(m: Bundles, window: uint64, env: Env, head: ChainTip, plan: Plan)
    requires 1 <= window <= MAX_BLOCK_WINDOW && ExactWindow(m, window) && !plan.mode.FullReload?
    requires ReplacementStart(m, env, TipOf(m), head, WindowStart(head.number, window)) == Ok(plan)
    ensures |m| - |Restrict(m, 0, WindowStart(head.number, window))|
            - (if plan.reorg.Some? then plan.reorg.value.replacedBlockCount else 0)
            == plan.from - WindowStart(head.number, window)
  {
    var retainFrom := WindowStart(head.number, window);
    PlanReportsReplaced(m, env, head, retainFrom);
    if m == map[] {
      assert Restrict(m, 0, retainFrom) == map[];
    } else {
      WindowCounts(m, window, retainFrom);
    }
  }

  lemma CountsBalance(m: Bundles, c: Config, env: Env, d: Decision, r: Bundles)
    requires 1 <= c.blockWindow <= MAX_BLOCK_WINDOW && ExactWindow(m, c.blockWindow) && Decided(m, c, env, d)
    requires Spliced(m, r, WindowStart(d.head.number, c.blockWindow), d.plan.from, d.head.number, d.blocks)
    requires !d.plan.mode.FullReload?
    ensures |r| == |m| - |Restrict(m, 0, WindowStart(d.head.number, c.blockWindow))|
                   - (if d.plan.reorg.Some? then d.plan.reorg.value.replacedBlockCount else 0) + |d.blocks|
  {
    PlanStaysInWindow(m, env, d.head, WindowStart(d.head.number, c.blockWindow));
    DecidedTip(m, c, env, d, r);
    SplicedWindow(m, r, c.blockWindow, d.plan.from, d.head, d.blocks);
    KeptCount(m, c.blockWindow, env, d.head, d.plan);
    WindowSize(r, c.blockWindow);
  }

  /**
   * Blocks are conserved: what was stored, less the pruned blocks, less the blocks reported as
   * replaced, plus the fetched blocks is what is stored now.
   */
  lemma BlockCountIsConserved(s: Ledger, c: Config, env: Env)
    requires SyncCycle(s, c, env).Ok? && c.blockWindow >= 1 && ExactWindow(s.bundles, c.blockWindow)
    requires !SyncCycle(s, c, env).value.result.mode.FullReload?
    ensures var Cycle(t, r) := SyncCycle(s, c, env).value;
            var pruned := |Restrict(s.bundles, 0, r.fromBlock)|;
            var replaced := if r.reorg.Some? then r.reorg.value.replacedBlockCount else 0;
            |t.bundles| == |s.bundles| - pruned - replaced + r.blockCount
  {
    var d := TakeApart(s, c, env);
    CycleContents(s, c, env, d);
    CountsBalance(s.bundles, c, env, d, Candidate(s.bundles, UpdateOf(c, env, d)));
  }

  lemma EmptyUpdateAtTip(m: Bundles, window: uint64, u: CanonicalUpdate)
    requires window >= 1 && m != map[] && ExactWindow(m, window)
    requires u.blocks == []
    requires u.retainFrom == WindowStart(TipOf(m).value.number, window)
    requires u.replaceFrom == TipOf(m).value.number + 1
    ensures Candidate(m, u) == m
  {
    CandidateContents(m, u);
  }

  lemma CurrentCycle(s: Ledger, c: Config, env: Env, head: ChainTip)
    requires ConfigError(c) == None && Located(env.head) == Ok(head) && !env.tipCancelled && !env.applyCancelled
    requires TipOf(s.bundles) == Some(head) && head.number < MAX_UINT64
    requires ValidChain(s.bundles) && ExactWindow(s.bundles, c.blockWindow)
    requires s.chainID == c.chainID
    ensures SyncCycle(s, c, env).Ok?
    ensures SyncCycle(s, c, env).value.ledger == s.(lastSyncedAt := env.now)
    ensures SyncCycle(s, c, env).value.result.mode == Current
    ensures SyncCycle(s, c, env).value.result.blockCount == 0
  {
    var d := Decision(head, Some(head), Plan(head.number + 1, Current, None), []);
    EmptyUpdateAtTip(s.bundles, c.blockWindow, UpdateOf(c, env, d));
    PutTogether(s, c, env, d);
  }

  /** A second cycle on the same head is current, fetches nothing and changes no block. */
  lemma RepeatIsCurrent(s: Ledger, c: Config, env: Env, again: Env)
    requires SyncCycle(s, c, env).Ok? && c.blockWindow >= 1 && ExactWindow(s.bundles, c.blockWindow)
    requires again.head == env.head && !again.tipCancelled && !again.applyCancelled
    requires SyncCycle(s, c, env).value.result.head.number < MAX_UINT64
    ensures var t := SyncCycle(s, c, env).value.ledger;
            && SyncCycle(t, c, again).Ok?
            && SyncCycle(t, c, again).value.ledger == t.(lastSyncedAt := again.now)
            && SyncCycle(t, c, again).value.result.mode == Current
            && SyncCycle(t, c, again).value.result.blockCount == 0
  {
    var d := TakeApart(s, c, env);
    SelectedHeadIsTip(s, c, env);
    CycleKeepsWindow(s, c, env);
    CurrentCycle(SyncCycle(s, c, env).value.ledger, c, again, d.head);
  }
}
