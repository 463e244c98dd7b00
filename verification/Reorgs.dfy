/** Single reorganizations: what they find, what they leave behind, and how they fail. */
module Reorgs {
  import opened Wrappers
  import opened Errors
  import opened Cdc
  import opened BlockCaching
  import opened Runtimes
  import opened Synchronizing
  import opened Invariants
  import opened Consistency

  // ---------------------------------------------------------------- failures

  lemma {:induction false} FetchFails(first: nat, last: nat, p: Poll)
    ensures FetchHashes(first, last, p).Failure? <==> exists h: nat | first <= h <= last :: !p.fetch(h).Found?
    ensures FetchHashes(first, last, p).Failure? ==> FetchHashes(first, last, p).error == ClientFailed
    decreases last + 1 - first
  {
    if first <= last && p.fetch(first).Found? {
      FetchFails(first + 1, last, p);
    }
  }

  ghost predicate AllFetched(newHeight: nat, p: Poll) {
    forall h: nat | h <= newHeight :: p.fetch(h).Found?
  }

  /** The greatest height up to `newHeight` on which cache and client agree. */
  ghost predicate IsAncestor(s: Sync, newHeight: nat, p: Poll, a: nat) {
    a <= newHeight && Agrees(s, a, p) && forall h: nat | a < h <= newHeight :: !Agrees(s, h, p)
  }

  /** The greatest height above the ancestor, up to `current_height`, that was never logged. */
  ghost predicate IsUnlogged(s: Sync, a: nat, h: nat) {
    a < h <= s.height && h !in s.runtime.log && forall k | h < k <= s.height :: k in s.runtime.log
  }

  /** How planning a reorg ends, each outcome with its exact cause; there is no other outcome. */
  lemma PlanOutcome(s: Sync, newHeight: nat, p: Poll)
    ensures var r := PlanReorg(s, newHeight, p);
            r == Failure(ClientFailed) <==> !AllFetched(newHeight, p)
    ensures var r := PlanReorg(s, newHeight, p);
            r == Failure(NoCommonAncestor) <==>
            AllFetched(newHeight, p) && forall h: nat | h <= newHeight :: !Agrees(s, h, p)
    ensures var r := PlanReorg(s, newHeight, p);
            forall h: nat :: r == Failure(NoMessagesFor(h)) <==>
                             AllFetched(newHeight, p)
                             && exists a: nat :: IsAncestor(s, newHeight, p, a) && IsUnlogged(s, a, h)
    ensures var r := PlanReorg(s, newHeight, p);
            forall a: nat :: r.Success? && r.value.ancestor == a <==>
                             AllFetched(newHeight, p) && IsAncestor(s, newHeight, p, a)
                             && forall h | a < h <= s.height :: h in s.runtime.log
    ensures var r := PlanReorg(s, newHeight, p);
            r.Success? || r.error in {ClientFailed, NoCommonAncestor} || r.error.NoMessagesFor?
  {
    FetchFails(0, newHeight, p);
    if FetchHashes(0, newHeight, p).Success? {
      AncestorAgrees(s, newHeight, p);
      var found := CommonAncestor(s.cache, FetchHashes(0, newHeight, p).value);
      if found.Some? {
        AncestorOutcome(s, newHeight, p, found.value);
      }
    }
  }

  lemma AncestorOutcome(s: Sync, newHeight: nat, p: Poll, ancestor: nat)
    requires FetchHashes(0, newHeight, p).Success? && AllFetched(newHeight, p)
    requires CommonAncestor(s.cache, FetchHashes(0, newHeight, p).value) == Some(ancestor)
    requires IsAncestor(s, newHeight, p, ancestor)
    ensures forall a: nat :: IsAncestor(s, newHeight, p, a) <==> a == ancestor
    ensures forall h: nat :: PlanReorg(s, newHeight, p) == Failure(NoMessagesFor(h)) <==> IsUnlogged(s, ancestor, h)
    ensures PlanReorg(s, newHeight, p).Success? <==> forall h | ancestor < h <= s.height :: h in s.runtime.log
    ensures PlanReorg(s, newHeight, p).Success? ==> PlanReorg(s, newHeight, p).value.ancestor == ancestor
    ensures PlanReorg(s, newHeight, p).Failure? ==> PlanReorg(s, newHeight, p).error.NoMessagesFor?
  {
    forall a: nat | IsAncestor(s, newHeight, p, a)
      ensures a == ancestor
    {
      assert !(a < ancestor) && !(ancestor < a);
    }
    UndoStreamFails(s.runtime.log, s.height, ancestor);
  }

  lemma {:induction false} ProcessRangeFrame(s: Sync, first: nat, last: nat, p: Poll)
    ensures var r := RangeStep(s, first, last, p);
            && r.state.height == s.height && r.state.capacity == s.capacity
            && (r.error.Some? ==> r.error.value in {ClientFailed, TransformFailed, SinkFailed})
    decreases last + 1 - first
  {
    if first <= last && BlockStep(s, first, p).error.None? {
      ProcessRangeFrame(BlockStep(s, first, p).state, first + 1, last, p);
    }
  }

  /** A reorg that fails before it sends anything changes nothing; once an ancestor is found neither the
      snapshot lookup nor the rollback can fail; and no reorg ever moves `current_height`. */
  lemma ReorgFailsCleanly(s: Sync, newHeight: nat, p: Poll)
    ensures var r := ReorgStep(s, newHeight, p);
            && (PlanReorg(s, newHeight, p).Failure? ==> r.error.Some? && r.state == s)
            && (r.error == Some(NoCommonAncestor) || (r.error.Some? && r.error.value.NoMessagesFor?) ==> r.state == s)
            && (r.error.Some? ==> !r.error.value.SnapshotNotFound? && !r.error.value.NotInCache?)
            && r.state.height == s.height
  {
    PlanOutcome(s, newHeight, p);
    if PlanReorg(s, newHeight, p).Success? {
      var plan := PlanReorg(s, newHeight, p).value;
      AncestorAgrees(s, newHeight, p);
      ProcessRangeFrame(Undone(s, plan), plan.ancestor + 1, newHeight, p);
    }
  }

  /** If the sink refuses the inverse messages, it has taken the first of them at most. The cache, the blocks in
      effect and the message log are as before; the runtime is already back at the ancestor. */
  lemma RefusedInverseChangesNoBlocks(s: Sync, newHeight: nat, p: Poll) returns (taken: nat)
    requires PlanReorg(s, newHeight, p).Success?
    requires PlanReorg(s, newHeight, p).value.inverse != [] && p.inverseSent.Refused?
    ensures var r := ReorgStep(s, newHeight, p);
            r.error == Some(SinkFailed) && r.state.cache == s.cache && r.state.ledger == s.ledger
            && r.state.runtime.log == s.runtime.log && r.state.runtime.hash == s.runtime.hash
            && r.state.runtime.height == PlanReorg(s, newHeight, p).value.ancestor
            && r.state.runtime.state == PlanReorg(s, newHeight, p).value.snapshot
            && r.state.height == s.height && r.state.capacity == s.capacity
    ensures var inverse := PlanReorg(s, newHeight, p).value.inverse;
            taken == (if p.inverseSent.taken < |inverse| then p.inverseSent.taken else |inverse|)
            && SinkLog(ReorgStep(s, newHeight, p).state) == SinkLog(s) + Payloads(inverse)[..taken]
  {
    var inverse := PlanReorg(s, newHeight, p).value.inverse;
    taken := if p.inverseSent.taken <= |inverse| then p.inverseSent.taken else |inverse|;
    var batch := inverse[..taken];
    assert inverse[..|inverse|] == inverse;
    assert ReorgStep(s, newHeight, p).state.sent == s.sent + [batch];
    FlattenAppend(s.sent, batch);
    PayloadsConcat(Flatten(s.sent), batch);
    assert Payloads(batch) == Payloads(inverse)[..taken];
  }

  /** A reorg succeeds exactly when its plan can be made, a non-empty inverse stream is accepted, and every
      height it replays gets through. */
  lemma ReorgSucceedsExactly(s: Sync, newHeight: nat, p: Poll)
    ensures ReorgStep(s, newHeight, p).error.None?
            <==> PlanReorg(s, newHeight, p).Success?
                 && (PlanReorg(s, newHeight, p).value.inverse == [] || p.inverseSent.Accepted?)
                 && forall h | PlanReorg(s, newHeight, p).value.ancestor < h <= newHeight :: GetsThrough(p, h)
  {
    if PlanReorg(s, newHeight, p).Success? {
      PlannedIsCached(s, newHeight, p);
      PlannedReorgSucceedsExactly(s, PlanReorg(s, newHeight, p).value, newHeight, p);
    }
  }

  lemma PlannedIsCached(s: Sync, newHeight: nat, p: Poll)
    requires PlanReorg(s, newHeight, p).Success?
    ensures RolledBack(s.cache, PlanReorg(s, newHeight, p).value.ancestor).Some?
  {
  }

  lemma PlannedReorgSucceedsExactly(s: Sync, plan: Plan, newHeight: nat, p: Poll)
    requires RolledBack(s.cache, plan.ancestor).Some?
    requires PlanReorg(s, newHeight, p) == Success(plan)
    ensures ReorgStep(s, newHeight, p).error.None?
            <==> (plan.inverse == [] || p.inverseSent.Accepted?)
                 && forall h | plan.ancestor < h <= newHeight :: GetsThrough(p, h)
  {
    RangeSucceedsExactly(Undone(s, plan), plan.ancestor + 1, newHeight, p);
  }

  /** No block is cached at or below the starting height, so a reorg to such a height, genesis
      included, never succeeds. */
  lemma RollbackBelowStartFails(s: Sync, newHeight: nat, p: Poll, floor: nat)
    requires Inv(s, floor) && newHeight <= floor
    ensures ReorgStep(s, newHeight, p).error in {Some(ClientFailed), Some(NoCommonAncestor)}
    ensures ReorgStep(s, newHeight, p).state == s
  {
    PlanOutcome(s, newHeight, p);
    SuffixParts(s.cache, s.ledger);
    forall h: nat | h <= newHeight
      ensures !Agrees(s, h, p)
    {
      assert forall b | b in s.cache :: b in s.ledger;
    }
    if PlanReorg(s, newHeight, p).Success? {
      PlanFacts(s, newHeight, p, floor);
      assert false;
    }
  }

  // ---------------------------------------------------------------- the fork point

  /** `at(x, h)` is the hash of the block at height `h` on the chain that ends in hash `x`. */
  ghost predicate OneChain(blocks: seq<CachedBlock>, at: (Hash, nat) -> Hash) {
    forall i, j | 0 <= i < j < |blocks| :: at(blocks[j].hash, blocks[i].height) == blocks[i].hash
  }

  ghost predicate ClientChain(p: Poll, top: nat, at: (Hash, nat) -> Hash) {
    && (forall h | 0 <= h <= top :: p.fetch(h).Found?)
    && (forall h, k | 0 <= h < k <= top :: at(p.fetch(k).hash, h) == p.fetch(h).hash)
  }

  /** If a hash fixes the hashes below it, agreeing at one cached height means agreeing at all lower ones. */
  lemma AgreesBelow(s: Sync, height: nat, p: Poll, at: (Hash, nat) -> Hash)
    requires Increasing(s.cache) && OneChain(s.cache, at) && ClientChain(p, height, at) && Agrees(s, height, p)
    ensures forall b | b in s.cache && b.height <= height :: Agrees(s, b.height, p)
  {
    var j := IndexOf(s.cache, height).value;
    forall b | b in s.cache && b.height <= height
      ensures Agrees(s, b.height, p)
    {
      var i :| 0 <= i < |s.cache| && s.cache[i] == b;
      IndexOfUnique(s.cache, i);
    }
  }

  /** The blocks are the client's at their heights. */
  ghost predicate OnChain(blocks: seq<CachedBlock>, p: Poll) {
    forall b | b in blocks :: p.fetch(b.height) == Found(b.hash)
  }

  /** The last of the blocks is the client's at its height. */
  predicate TipAgrees(blocks: seq<CachedBlock>, p: Poll) {
    blocks != [] ==> p.fetch(blocks[|blocks| - 1].height) == Found(blocks[|blocks| - 1].hash)
  }

  /** Blocks are all the client's exactly when they form one chain and the last of them is the client's. */
  lemma OnChainExactly(blocks: seq<CachedBlock>, top: nat, p: Poll, at: (Hash, nat) -> Hash)
    requires Increasing(blocks) && ClientChain(p, top, at) && forall b | b in blocks :: b.height <= top
    ensures OnChain(blocks, p) <==> OneChain(blocks, at) && TipAgrees(blocks, p)
  {
    if OnChain(blocks, p) {
      OnClientChain(blocks, top, p, at);
    } else if OneChain(blocks, at) && TipAgrees(blocks, p) {
      BelowTip(blocks, top, p, at);
    }
  }

  lemma BelowTip(blocks: seq<CachedBlock>, top: nat, p: Poll, at: (Hash, nat) -> Hash)
    requires Increasing(blocks) && ClientChain(p, top, at) && forall b | b in blocks :: b.height <= top
    requires OneChain(blocks, at) && TipAgrees(blocks, p)
    ensures OnChain(blocks, p)
  {
    forall b | b in blocks
      ensures p.fetch(b.height) == Found(b.hash)
    {
      var i :| 0 <= i < |blocks| && blocks[i] == b;
      var tip := blocks[|blocks| - 1];
      assert tip in blocks && p.fetch(tip.height) == Found(tip.hash);
      if i < |blocks| - 1 {
        assert at(tip.hash, b.height) == b.hash;
        assert at(p.fetch(tip.height).hash, b.height) == p.fetch(b.height).hash;
      }
    }
  }

  /** The ancestor found is the true fork point of a cache that is one chain: every cached block up to it is on
      the client's chain and every cached block above it, as far as the hashes reach, is not. */
  lemma ForkPoint(s: Sync, newHeight: nat, p: Poll, at: (Hash, nat) -> Hash)
    requires Increasing(s.cache) && OneChain(s.cache, at) && ClientChain(p, newHeight, at)
    requires PlanReorg(s, newHeight, p).Success?
    ensures forall b | b in s.cache && b.height <= newHeight ::
              Agrees(s, b.height, p) <==> b.height <= PlanReorg(s, newHeight, p).value.ancestor
  {
    AncestorAgrees(s, newHeight, p);
    AgreesBelow(s, PlanReorg(s, newHeight, p).value.ancestor, p, at);
  }

  /** In any cache, the ancestor found is the true fork point exactly when the blocks kept up to it are one
      chain. */
  lemma ForkPointExactly(s: Sync, newHeight: nat, p: Poll, at: (Hash, nat) -> Hash)
    requires Increasing(s.cache) && ClientChain(p, newHeight, at) && PlanReorg(s, newHeight, p).Success?
    ensures RolledBack(s.cache, PlanReorg(s, newHeight, p).value.ancestor).Some?
    ensures var a := PlanReorg(s, newHeight, p).value.ancestor;
            (forall b | b in s.cache && b.height <= newHeight :: Agrees(s, b.height, p) <==> b.height <= a)
            <==> OneChain(RolledBack(s.cache, a).value, at)
  {
    var a := PlanReorg(s, newHeight, p).value.ancestor;
    AncestorAgrees(s, newHeight, p);
    var kept := RolledBack(s.cache, a).value;
    KeptUpTo(s.cache, a);
    AgreesIsOnChain(s, p);
    assert kept[|kept| - 1] in kept;
    OnChainExactly(kept, a, p, at);
    forall b | b in s.cache && a < b.height <= newHeight
      ensures !Agrees(s, b.height, p)
    {
    }
  }

  /** A rollback keeps just the blocks up to the height. */
  lemma KeptUpTo(blocks: seq<CachedBlock>, height: nat)
    requires Increasing(blocks) && RolledBack(blocks, height).Some?
    ensures var kept := RolledBack(blocks, height).value;
            && Increasing(kept) && kept != [] && kept[|kept| - 1].height == height
            && forall b :: b in kept <==> b in blocks && b.height <= height
  {
    var i := IndexOf(blocks, height).value;
    SplitHeights(blocks, i);
    assert blocks == blocks[..i + 1] + blocks[i + 1..];
  }

  lemma AgreesIsOnChain(s: Sync, p: Poll)
    requires Increasing(s.cache)
    ensures forall b | b in s.cache :: Agrees(s, b.height, p) <==> p.fetch(b.height) == Found(b.hash)
  {
    forall b | b in s.cache
      ensures Agrees(s, b.height, p) <==> p.fetch(b.height) == Found(b.hash)
    {
      var i :| 0 <= i < |s.cache| && s.cache[i] == b;
      IndexOfUnique(s.cache, i);
    }
  }

  /** When a poll decides on a reorg: only if metashrew reports no height above the current one, so a chain that
      reorganized and grew is caught up with instead. */
  lemma ReorgDecidedExactly(s: Sync, m: nat, c: nat, p: Poll)
    ensures Decide(s, m, c, p).Reorg?
            <==> && 0 < s.height && m <= s.height && BlockAt(s.cache, s.height).Some?
                 && match p.probe(s.height)
                    case Found(hash) => hash != BlockAt(s.cache, s.height).value.hash
                    case _ => s.height != 1
  {
  }

  /** Whatever metashrew reports, a poll decides on a reorg of a cache that is one chain exactly when a block is
      cached at the current height, no greater height is reported, and some cached block is not the client's. */
  lemma TipDetectsDivergence(s: Sync, m: nat, c: nat, p: Poll, at: (Hash, nat) -> Hash)
    requires Increasing(s.cache) && OneChain(s.cache, at) && ClientChain(p, s.height, at)
    requires p.probe(s.height) == p.fetch(s.height)
    ensures Decide(s, m, c, p).Reorg?
            <==> && 0 < s.height && m <= s.height && BlockAt(s.cache, s.height).Some?
                 && exists b | b in s.cache && b.height <= s.height :: !Agrees(s, b.height, p)
  {
    ReorgDecidedExactly(s, m, c, p);
    if BlockAt(s.cache, s.height).Some? {
      assert BlockAt(s.cache, s.height).value in s.cache;
      if Agrees(s, s.height, p) {
        AgreesBelow(s, s.height, p, at);
      }
    }
  }

  // ---------------------------------------------------------------- reorg refines replay

  function LastOf(blocks: seq<CachedBlock>, n: nat): seq<CachedBlock> {
    if |blocks| <= n then blocks else blocks[|blocks| - n..]
  }

  lemma LastOfPushed(cache: seq<CachedBlock>, b: CachedBlock, rest: seq<CachedBlock>, capacity: nat)
    requires |cache| <= capacity
    ensures |Push(cache, b, capacity)| <= capacity
    ensures LastOf(Push(cache, b, capacity) + rest, capacity) == LastOf(cache + ([b] + rest), capacity)
  {
    var all := cache + ([b] + rest);
    assert cache + [b] + rest == all;
    if |cache| == capacity {
      assert Push(cache, b, capacity) + rest == all[1..];
    }
  }

  lemma {:induction false} ProcessedAllCache(s: Sync, blocks: seq<CachedBlock>)
    requires |s.cache| <= s.capacity
    ensures ProcessedAll(s, blocks).cache == LastOf(s.cache + blocks, s.capacity)
    decreases |blocks|
  {
    if blocks == [] {
      assert s.cache + [] == s.cache;
    } else {
      ProcessedAllCache(Processed(s, blocks[0]), blocks[1..]);
      assert blocks == [blocks[0]] + blocks[1..];
      LastOfPushed(s.cache, blocks[0], blocks[1..], s.capacity);
    }
  }

  /** The hashes fetched for a reorg are the ones its blocks are then processed with. */
  ghost predicate Stable(p: Poll, top: nat) {
    forall h | 0 <= h <= top :: p.serve(h) == p.fetch(h)
  }

  lemma {:induction false} OfferedAll(state: TransformState, first: nat, last: nat, p: Poll)
    requires first <= last + 1
    requires forall h | first <= h <= last :: p.serve(h).Found? && p.transform(h).Messages?
    ensures var blocks := Offered(state, first, last, p);
            && |blocks| == last + 1 - first
            && forall i | 0 <= i < |blocks| ::
                 blocks[i] == CachedBlock(first + i, p.serve(first + i).hash, state, p.transform(first + i).messages)
    decreases last + 1 - first
  {
    if first <= last {
      OfferedAll(state, first + 1, last, p);
    }
  }

  lemma {:induction false} ProcessRangeAll(s: Sync, first: nat, last: nat, p: Poll)
    requires RangeStep(s, first, last, p).error.None?
    ensures forall h | first <= h <= last && p.serve(h).Found? :: p.transform(h).Messages?
    decreases last + 1 - first
  {
    if first <= last {
      ProcessRangeAll(BlockStep(s, first, p).state, first + 1, last, p);
    }
  }

  /** A successful reorg against a stable client: the ledger becomes what was kept up to the ancestor and
      one new block a height from there to `newHeight`, and the cache the last `capacity` of its own. */
  lemma ReorgReplaces(s: Sync, newHeight: nat, p: Poll, floor: nat)
    returns (ancestor: nat, kept: seq<CachedBlock>, replayed: seq<CachedBlock>)
    requires Inv(s, floor) && ReorgStep(s, newHeight, p).error.None? && Stable(p, newHeight)
    ensures PlanReorg(s, newHeight, p).Success? && PlanReorg(s, newHeight, p).value.ancestor == ancestor <= newHeight
    ensures RolledBack(s.ledger, ancestor) == Some(kept)
    ensures var after := ReorgStep(s, newHeight, p).state;
            && after.ledger == kept + replayed
            && after.cache == LastOf(OrElse(RolledBack(s.cache, ancestor), []) + replayed, s.capacity)
    ensures |replayed| == newHeight - ancestor
    ensures forall i | 0 <= i < |replayed| ::
              replayed[i].height == ancestor + 1 + i && p.fetch(replayed[i].height) == Found(replayed[i].hash)
  {
    var undone;
    undone, ancestor := ReorgIsRange(s, newHeight, p, floor);
    kept := undone.ledger;
    PlanFetched(s, newHeight, p);
    replayed := RangeReplaces(undone, ancestor, newHeight, p, ReorgStep(s, newHeight, p).state);
  }

  lemma ReorgIsRange(s: Sync, newHeight: nat, p: Poll, floor: nat) returns (undone: Sync, ancestor: nat)
    requires InStep(s, floor, s.height) && ReorgStep(s, newHeight, p).error.None?
    ensures PlanReorg(s, newHeight, p).Success? && PlanReorg(s, newHeight, p).value.ancestor == ancestor <= newHeight
    ensures ReorgStep(s, newHeight, p) == RangeStep(undone, ancestor + 1, newHeight, p)
    ensures RolledBack(s.ledger, ancestor) == Some(undone.ledger) && RolledBack(s.cache, ancestor) == Some(undone.cache)
    ensures |undone.cache| <= undone.capacity == s.capacity
  {
    ReorgUnfolds(s, newHeight, p);
    UndoneParts(s, newHeight, p, floor);
    undone, ancestor := Undone(s, PlanReorg(s, newHeight, p).value), PlanReorg(s, newHeight, p).value.ancestor;
  }

  lemma PlanFetched(s: Sync, newHeight: nat, p: Poll)
    requires PlanReorg(s, newHeight, p).Success?
    ensures AllFetched(newHeight, p)
  {
    FetchFails(0, newHeight, p);
  }

  lemma RangeReplaces(s: Sync, ancestor: nat, newHeight: nat, p: Poll, after: Sync)
    returns (replayed: seq<CachedBlock>)
    requires |s.cache| <= s.capacity && ancestor <= newHeight
    requires RangeStep(s, ancestor + 1, newHeight, p) == Step(after, None)
    requires AllFetched(newHeight, p) && Stable(p, newHeight)
    ensures after.ledger == s.ledger + replayed && after.cache == LastOf(s.cache + replayed, s.capacity)
    ensures |replayed| == newHeight - ancestor
    ensures forall i | 0 <= i < |replayed| ::
              replayed[i].height == ancestor + 1 + i && p.fetch(replayed[i].height) == Found(replayed[i].hash)
  {
    replayed := Offered(s.runtime.state, ancestor + 1, newHeight, p);
    ProcessRangeOffers(s, ancestor + 1, newHeight, p);
    ProcessedAllParts(s, replayed);
    ProcessedAllCache(s, replayed);
    ReplayedBlocks(s, ancestor, newHeight, p);
  }

  lemma ReplayedBlocks(s: Sync, ancestor: nat, newHeight: nat, p: Poll)
    requires ancestor <= newHeight && RangeStep(s, ancestor + 1, newHeight, p).error.None?
    requires AllFetched(newHeight, p) && Stable(p, newHeight)
    ensures var blocks := Offered(s.runtime.state, ancestor + 1, newHeight, p);
            && |blocks| == newHeight - ancestor
            && forall i | 0 <= i < |blocks| ::
                 blocks[i].height == ancestor + 1 + i && p.fetch(blocks[i].height) == Found(blocks[i].hash)
  {
    ProcessRangeAll(s, ancestor + 1, newHeight, p);
    OfferedAll(s.runtime.state, ancestor + 1, newHeight, p);
  }

  /** Reorg refines replay: with every height above the ancestor still cached, the sink's table becomes the
      ancestor's table followed by the new blocks. */
  lemma ReorgRefinesReplay(s: Sync, newHeight: nat, p: Poll, base: Table, floor: nat)
    returns (ancestor: nat, kept: seq<CachedBlock>, replayed: seq<CachedBlock>)
    requires Inv(s, floor) && LogFormed(s.runtime) && Consistent(s, base)
    requires ReorgStep(s, newHeight, p).error.None? && Stable(p, newHeight)
    requires Valid(base, BlocksLog(ReorgStep(s, newHeight, p).state.ledger))
    requires Covered(s, PlanReorg(s, newHeight, p).value.ancestor)
    ensures RolledBack(s.ledger, ancestor) == Some(kept) && Agrees(s, ancestor, p)
    ensures |replayed| == newHeight - ancestor
    ensures forall i | 0 <= i < |replayed| ::
              replayed[i].height == ancestor + 1 + i && p.fetch(replayed[i].height) == Found(replayed[i].hash)
    ensures var after := ReorgStep(s, newHeight, p).state;
            && Valid(base, SinkLog(after))
            && Apply(base, SinkLog(after)) == Apply(Apply(base, BlocksLog(kept)), BlocksLog(replayed))
            && after.cache == LastOf(OrElse(RolledBack(s.cache, ancestor), []) + replayed, s.capacity)
  {
    ancestor, kept, replayed := ReorgReplaces(s, newHeight, p, floor);
    PlanFacts(s, newHeight, p, floor);
    CoveredReplays(s, ancestor, base, floor);
    ReorgFitsExactly(s, newHeight, p, base, floor);
    BlocksLogConcat(kept, replayed);
    ApplyConcat(base, BlocksLog(kept), BlocksLog(replayed));
  }

  /** If hashes fix the hashes below them and the cached blocks were one chain, after a reorg every cached block
      is on the client's chain. */
  lemma ReorgFollowsClient(s: Sync, newHeight: nat, p: Poll, floor: nat, at: (Hash, nat) -> Hash)
    requires Inv(s, floor) && ReorgStep(s, newHeight, p).error.None? && Stable(p, newHeight)
    requires OneChain(s.cache, at) && ClientChain(p, newHeight, at)
    ensures forall b | b in ReorgStep(s, newHeight, p).state.cache ::
              b.height <= newHeight && p.fetch(b.height) == Found(b.hash)
    ensures OneChain(ReorgStep(s, newHeight, p).state.cache, at)
  {
    var after := ReorgStep(s, newHeight, p).state;
    var ancestor, kept, replayed := ReorgReplaces(s, newHeight, p, floor);
    ReorgKeeps(s, newHeight, p, floor);
    SuffixParts(s.cache, s.ledger);
    SuffixParts(after.cache, after.ledger);
    KeptAgrees(s, newHeight, p, floor, at);
    forall b | b in after.cache
      ensures b.height <= newHeight && p.fetch(b.height) == Found(b.hash)
    {
      assert b in OrElse(RolledBack(s.cache, ancestor), []) || b in replayed;
    }
    OnClientChain(after.cache, newHeight, p, at);
  }

  lemma KeptAgrees(s: Sync, newHeight: nat, p: Poll, floor: nat, at: (Hash, nat) -> Hash)
    requires InStep(s, floor, s.height) && PlanReorg(s, newHeight, p).Success?
    requires Increasing(s.cache) && OneChain(s.cache, at) && ClientChain(p, newHeight, at)
    ensures var a := PlanReorg(s, newHeight, p).value.ancestor;
            RolledBack(s.cache, a).Some?
            && forall b | b in RolledBack(s.cache, a).value :: b.height <= a && p.fetch(b.height) == Found(b.hash)
  {
    var a := PlanReorg(s, newHeight, p).value.ancestor;
    PlanFacts(s, newHeight, p, floor);
    ForkPoint(s, newHeight, p, at);
    var kept := RolledBack(s.cache, a).value;
    forall b | b in kept
      ensures b.height <= a && p.fetch(b.height) == Found(b.hash)
    {
      var i :| 0 <= i < |kept| && kept[i] == b;
      RolledBackBelow(s.cache, a, i);
      IndexOfUnique(s.cache, i);
    }
  }

  lemma OnClientChain(blocks: seq<CachedBlock>, top: nat, p: Poll, at: (Hash, nat) -> Hash)
    requires ClientChain(p, top, at) && Increasing(blocks)
    requires forall b | b in blocks :: b.height <= top && p.fetch(b.height) == Found(b.hash)
    ensures OneChain(blocks, at)
  {
    forall i, j | 0 <= i < j < |blocks|
      ensures at(blocks[j].hash, blocks[i].height) == blocks[i].hash
    {
      assert blocks[i] in blocks && blocks[j] in blocks;
    }
  }

  lemma RolledBackBelow(blocks: seq<CachedBlock>, height: nat, i: nat)
    requires Increasing(blocks) && RolledBack(blocks, height).Some? && i < |RolledBack(blocks, height).value|
    ensures i < |blocks| && RolledBack(blocks, height).value[i] == blocks[i] && blocks[i].height <= height
  {
  }

  // ---------------------------------------------------------------- depth

  /** With a cache that holds the last heights without gaps, an ancestor is found exactly when some cached
      height up to `newHeight` agrees with the client; then at most `capacity - 1` blocks are undone, all of
      them cached and logged. */
  lemma ReorgDepth(s: Sync, newHeight: nat, p: Poll, floor: nat)
    requires Inv(s, floor)
    requires forall i | 0 <= i < |s.cache| :: s.cache[i].height == s.height + 1 - |s.cache| + i
    requires forall h: nat | h <= newHeight :: p.fetch(h).Found?
    ensures PlanReorg(s, newHeight, p).Success?
            <==> exists b | b in s.cache :: b.height <= newHeight && Agrees(s, b.height, p)
    ensures PlanReorg(s, newHeight, p).Success? ==>
              var a := PlanReorg(s, newHeight, p).value.ancestor;
              s.height - a <= s.capacity - 1 && Covered(s, a)
  {
    PlanOutcome(s, newHeight, p);
    FetchFails(0, newHeight, p);
    AncestorAgrees(s, newHeight, p);
    forall h: nat | h <= newHeight && Agrees(s, h, p)
      ensures exists b | b in s.cache :: b.height <= newHeight && Agrees(s, b.height, p)
    {
      assert s.cache[IndexOf(s.cache, h).value] in s.cache;
    }
    var found := CommonAncestor(s.cache, FetchHashes(0, newHeight, p).value);
    if found.Some? {
      CachedAbove(s, found.value, floor);
      UndoStreamFails(s.runtime.log, s.height, found.value);
    }
  }

  lemma CachedAbove(s: Sync, ancestor: nat, floor: nat)
    requires InStep(s, floor, s.height) && IndexOf(s.cache, ancestor).Some?
    requires forall i | 0 <= i < |s.cache| :: s.cache[i].height == s.height + 1 - |s.cache| + i
    ensures s.height - ancestor <= s.capacity - 1
    ensures forall h | ancestor < h <= s.height :: h in Heights(s.cache) && h in s.runtime.log
  {
    SuffixParts(s.cache, s.ledger);
    var i := IndexOf(s.cache, ancestor).value;
    assert i < |s.cache|;
    forall h | ancestor < h <= s.height
      ensures h in Heights(s.cache) && h in s.runtime.log
    {
      var b := BlockAbove(s.cache, s.height, i, h);
      assert Recorded(s.runtime, b);
    }
  }

  lemma BlockAbove(blocks: seq<CachedBlock>, top: nat, i: nat, h: nat) returns (b: CachedBlock)
    requires forall j | 0 <= j < |blocks| :: blocks[j].height == top + 1 - |blocks| + j
    requires i < |blocks| && blocks[i].height < h <= top
    ensures b in blocks && b.height == h
  {
    b := blocks[i + (h - blocks[i].height)];
  }

  // ---------------------------------------------------------------- what a reorg leaves behind

  /** After a reorg the heights above `newHeight` up to `current_height` hold no block, while the runtime
      still has what was logged for them. */
  lemma ReorgLeavesGap(s: Sync, newHeight: nat, p: Poll, floor: nat)
    requires Inv(s, floor) && newHeight < s.height && ReorgStep(s, newHeight, p).error.None?
    ensures var after := ReorgStep(s, newHeight, p).state;
            && after.height == s.height
            && (forall h | newHeight < h <= after.height :: h !in Heights(after.ledger) && h !in Heights(after.cache))
            && (forall h | newHeight < h && h in s.runtime.log ::
                  h in after.runtime.log && after.runtime.log[h] == s.runtime.log[h])
  {
    var plan, blocks := ReorgOffers(s, newHeight, p);
    var after := ReorgStep(s, newHeight, p).state;
    ReorgKeeps(s, newHeight, p, floor);
    SuffixParts(after.cache, after.ledger);
    OfferedShape(plan.snapshot, plan.ancestor + 1, newHeight, p);
    ProcessedAllParts(Undone(s, plan), blocks);
    ProcessedAllLogAbove(Undone(s, plan), blocks, newHeight);
  }

  lemma {:induction false} ProcessedAllLogAbove(s: Sync, blocks: seq<CachedBlock>, top: nat)
    requires forall b | b in blocks :: b.height <= top
    ensures forall h | top < h && h in s.runtime.log ::
              h in ProcessedAll(s, blocks).runtime.log
              && ProcessedAll(s, blocks).runtime.log[h] == s.runtime.log[h]
    decreases |blocks|
  {
    if blocks != [] {
      assert blocks[0] in blocks && forall b | b in blocks[1..] :: b in blocks;
      ProcessedAllLogAbove(Processed(s, blocks[0]), blocks[1..], top);
    }
  }

  /** A height left without a block is only ever filled by a later reorg that replays it, never by catching up. */
  lemma GapPersists(s: Sync, p: Poll, floor: nat, h: nat)
    requires Inv(s, floor) && PollStep(s, p).error.None?
    requires h <= s.height && h !in Heights(s.ledger) && h in Heights(PollStep(s, p).state.ledger)
    ensures PlanOf(s, p).Some? && PlanOf(s, p).value.ancestor < h < s.height
    ensures h <= Decide(s, p.metashrewHeight.value, p.blockCount.value, p).newHeight
  {
    var b :| b in PollStep(s, p).state.ledger && b.height == h;
    assert b.height in Heights(PollStep(s, p).state.ledger) && b !in s.ledger;
    var target, newHeight := PollCases(s, p);
    PlanOfReorg(s, p);
    if PlanOf(s, p).Some? {
      ReorgedAbove(s, newHeight, p, floor, b);
    } else {
      CaughtUpAbove(s, target, p, b);
    }
  }

  lemma ReorgedAbove(s: Sync, newHeight: nat, p: Poll, floor: nat, b: CachedBlock)
    requires InStep(s, floor, s.height) && ReorgStep(s, newHeight, p).error.None?
    requires b in ReorgStep(s, newHeight, p).state.ledger && b !in s.ledger
    ensures PlanReorg(s, newHeight, p).Success?
    ensures PlanReorg(s, newHeight, p).value.ancestor < b.height <= newHeight
  {
    var undone, ancestor := ReorgIsRange(s, newHeight, p, floor);
    RolledBackWithin(s.ledger, ancestor);
    RangedAbove(undone, ancestor, newHeight, p, b);
  }

  lemma RangedAbove(s: Sync, ancestor: nat, newHeight: nat, p: Poll, b: CachedBlock)
    requires RangeStep(s, ancestor + 1, newHeight, p).error.None?
    requires b in RangeStep(s, ancestor + 1, newHeight, p).state.ledger && b !in s.ledger
    ensures ancestor < b.height <= newHeight
  {
    var blocks := Offered(s.runtime.state, ancestor + 1, newHeight, p);
    ProcessRangeOffers(s, ancestor + 1, newHeight, p);
    OfferedShape(s.runtime.state, ancestor + 1, newHeight, p);
    ProcessedAllParts(s, blocks);
  }

  lemma RolledBackWithin(blocks: seq<CachedBlock>, height: nat)
    requires RolledBack(blocks, height).Some?
    ensures forall b | b in RolledBack(blocks, height).value :: b in blocks
  {
  }

  lemma CaughtUpAbove(s: Sync, target: nat, p: Poll, b: CachedBlock)
    requires s.height <= target && CatchUpStep(s, target, p).error.None?
    requires b in CatchUpStep(s, target, p).state.ledger && b !in s.ledger
    ensures s.height < b.height
  {
    CatchUpOffers(s, target, p);
    OfferedShape(s.runtime.state, s.height + 1, target, p);
    ProcessedAllParts(s, Offered(s.runtime.state, s.height + 1, target, p));
  }

  /** With no block at `current_height`, which every reorg brings about, no later divergence is looked for
      until the height has moved. */
  lemma BlindAtGap(s: Sync, p: Poll, m: nat, c: nat, floor: nat)
    requires Inv(s, floor) && s.height !in Heights(s.ledger)
    ensures !Decide(s, m, c, p).Reorg?
  {
    CachedIsInEffect(s, s.height, floor);
  }

  lemma CachedIsInEffect(s: Sync, height: nat, floor: nat)
    requires InStep(s, floor, s.height)
    ensures BlockAt(s.cache, height).Some? ==> height in Heights(s.ledger)
  {
    SuffixParts(s.cache, s.ledger);
    if BlockAt(s.cache, height).Some? {
      var b := BlockAt(s.cache, height).value;
      assert b in s.cache && b in s.ledger;
    }
  }

  /** Every height above the start holds a block in effect. */
  ghost predicate Complete(s: Sync, floor: nat) {
    forall h | floor < h <= s.height :: h in Heights(s.ledger)
  }

  /** Catching up over available blocks leaves no gap. */
  lemma CatchUpCompletes(s: Sync, target: nat, p: Poll, floor: nat)
    requires Inv(s, floor) && Complete(s, floor) && s.height <= target && CatchUpStep(s, target, p).error.None?
    requires forall h | s.height < h <= target :: p.serve(h).Found?
    ensures Complete(CatchUpStep(s, target, p).state, floor)
  {
    var blocks := Offered(s.runtime.state, s.height + 1, target, p);
    CatchUpOffers(s, target, p);
    ProcessedAllParts(s, blocks);
    CatchUpAll(s, target, p);
    OfferedAll(s.runtime.state, s.height + 1, target, p);
    HeightsJoin(s.ledger, blocks, floor, s.height, target);
  }

  lemma HeightsJoin(a: seq<CachedBlock>, b: seq<CachedBlock>, floor: nat, mid: nat, top: nat)
    requires mid <= top && forall h | floor < h <= mid :: h in Heights(a)
    requires |b| == top - mid && forall i | 0 <= i < |b| :: b[i].height == mid + 1 + i
    ensures forall h | floor < h <= top :: h in Heights(a + b)
  {
    assert forall x | x in a :: x in a + b;
    forall h | floor < h <= top
      ensures h in Heights(a + b)
    {
      if h <= mid {
        assert h in Heights(a);
        var x :| x in a && x.height == h;
        assert x in a + b;
      } else {
        assert b[h - mid - 1] in a + b;
      }
    }
  }

  lemma {:induction false} CatchUpAll(s: Sync, target: nat, p: Poll)
    requires CatchUpStep(s, target, p).error.None?
    ensures forall h | s.height < h <= target && p.serve(h).Found? :: p.transform(h).Messages?
    decreases target - s.height
  {
    if s.height < target {
      CatchUpAll(BlockStep(s, s.height + 1, p).state.(height := s.height + 1), target, p);
    }
  }

  // ---------------------------------------------------------------- progress

  /** While metashrew stands at `m`, every error-free poll below it gains at least a block, whatever count is
      reported; `m` is reached within `m - current_height` polls, never passed, and then kept. */
  lemma {:induction false} CatchUpProgress(s: Sync, polls: seq<Poll>, m: nat)
    requires s.height <= m && RunSteps(s, polls).error.None?
    requires forall p | p in polls :: p.metashrewHeight == Some(m)
    ensures var h := RunSteps(s, polls).state.height;
            s.height <= h <= m && (h == m || s.height + |polls| <= h)
    decreases |polls|
  {
    if polls != [] {
      var n := |polls| - 1;
      assert polls[n] in polls && forall p | p in polls[..n] :: p in polls;
      CatchUpProgress(s, polls[..n], m);
      PollProgress(RunSteps(s, polls[..n]).state, polls[n]);
    }
  }

  lemma PollProgress(s: Sync, p: Poll)
    requires PollStep(s, p).error.None? && p.metashrewHeight.Some? && s.height <= p.metashrewHeight.value
    ensures var h := PollStep(s, p).state.height;
            s.height <= h <= p.metashrewHeight.value && (s.height < p.metashrewHeight.value ==> s.height < h)
  {
    match Decide(s, p.metashrewHeight.value, p.blockCount.value, p) {
      case Advance => CatchUpHeight(s, s.height + 1, p);
      case Follow(target) => CatchUpHeight(s, target, p);
      case Reorg(newHeight) => ReorgFailsCleanly(s, newHeight, p);
      case Idle =>
    }
  }

  lemma {:induction false} CatchUpHeight(s: Sync, target: nat, p: Poll)
    requires CatchUpStep(s, target, p).error.None?
    ensures CatchUpStep(s, target, p).state.height == if s.height <= target then target else s.height
    decreases target - s.height
  {
    if s.height < target {
      CatchUpHeight(BlockStep(s, s.height + 1, p).state.(height := s.height + 1), target, p);
    }
  }
}
