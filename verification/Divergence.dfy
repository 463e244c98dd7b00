/** Whether the blocks in effect are the client's: what catching up and reorgs do to that, over whole runs. */
module Divergence {
  import opened Wrappers
  import opened BlockCaching
  import opened Synchronizing
  import opened Invariants
  import opened Reorgs

  // ---------------------------------------------------------------- catching up

  /** Against a stable client that has them all, catching up appends one block a height, each the client's. */
  lemma CatchUpServes(s: Sync, target: nat, p: Poll, at: (Hash, nat) -> Hash) returns (blocks: seq<CachedBlock>)
    requires s.height <= target && CatchUpStep(s, target, p).error.None?
    requires ClientChain(p, target, at) && Stable(p, target)
    ensures CatchUpStep(s, target, p).state.ledger == s.ledger + blocks
    ensures |blocks| == target - s.height && OnChain(blocks, p)
    ensures forall i | 0 <= i < |blocks| :: blocks[i].height == s.height + 1 + i
  {
    blocks := Offered(s.runtime.state, s.height + 1, target, p);
    CatchUpOffers(s, target, p);
    ProcessedAllParts(s, blocks);
    CatchUpAll(s, target, p);
    ServedIsClients(s.runtime.state, s.height + 1, target, p);
  }

  lemma ServedIsClients(state: TransformState, first: nat, last: nat, p: Poll)
    requires first <= last + 1 && Stable(p, last) && forall h | first <= h <= last :: p.fetch(h).Found?
    requires forall h | first <= h <= last && p.serve(h).Found? :: p.transform(h).Messages?
    ensures var blocks := Offered(state, first, last, p);
            && |blocks| == last + 1 - first && OnChain(blocks, p)
            && forall i | 0 <= i < |blocks| :: blocks[i].height == first + i
  {
    OfferedAll(state, first, last, p);
  }

  /** Catching up checks nothing about the blocks it builds on: what results is one chain exactly when every
      block that was in effect is on the client's chain. */
  lemma CatchUpLinksExactly(s: Sync, target: nat, p: Poll, floor: nat, at: (Hash, nat) -> Hash)
    requires Inv(s, floor) && s.height < target && CatchUpStep(s, target, p).error.None?
    requires ClientChain(p, target, at) && Stable(p, target)
    ensures OneChain(CatchUpStep(s, target, p).state.ledger, at) <==> OnChain(s.ledger, p)
    ensures OnChain(CatchUpStep(s, target, p).state.ledger, p) <==> OnChain(s.ledger, p)
  {
    var after := CatchUpStep(s, target, p).state.ledger;
    var blocks := CatchUpServes(s, target, p, at);
    CatchUpKeeps(s, target, p, floor);
    OnChainConcat(s.ledger, blocks, p);
    assert after[|after| - 1] == blocks[|blocks| - 1] && blocks[|blocks| - 1] in blocks;
    OnChainExactly(after, target, p, at);
  }

  /** Having caught up, a poll that finds the client's hash at the new height unchanged and no greater height
      reported does nothing, whatever lies below. */
  lemma CaughtUpIsIdle(s: Sync, target: nat, p: Poll, floor: nat, at: (Hash, nat) -> Hash, again: Poll)
    requires Inv(s, floor) && s.height < target && CatchUpStep(s, target, p).error.None?
    requires ClientChain(p, target, at) && Stable(p, target)
    requires again.metashrewHeight.Some? && again.metashrewHeight.value <= target && again.blockCount.Some?
    requires again.probe(target) == p.fetch(target)
    ensures var after := CatchUpStep(s, target, p).state;
            PollStep(after, again) == Step(after, None)
  {
    var after := CatchUpStep(s, target, p).state;
    CatchUpKeeps(s, target, p, floor);
    NewTipIsCached(s, target, p, floor, at);
    ReorgDecidedExactly(after, again.metashrewHeight.value, again.blockCount.value, again);
  }

  lemma NewTipIsCached(s: Sync, target: nat, p: Poll, floor: nat, at: (Hash, nat) -> Hash)
    requires Inv(s, floor) && s.height < target && CatchUpStep(s, target, p).error.None?
    requires ClientChain(p, target, at) && Stable(p, target)
    ensures var tip := BlockAt(CatchUpStep(s, target, p).state.cache, target);
            tip.Some? && p.fetch(target) == Found(tip.value.hash)
  {
    var after := CatchUpStep(s, target, p).state;
    var blocks := CatchUpServes(s, target, p, at);
    CatchUpKeeps(s, target, p, floor);
    CatchUpCaches(s, target, p, blocks);
    SuffixParts(after.cache, after.ledger);
    assert after.cache[|after.cache| - 1] == after.ledger[|after.ledger| - 1] == blocks[|blocks| - 1];
    assert blocks[|blocks| - 1] in blocks;
    IndexOfUnique(after.cache, |after.cache| - 1);
  }

  lemma CatchUpCaches(s: Sync, target: nat, p: Poll, blocks: seq<CachedBlock>)
    requires s.height <= target && CatchUpStep(s, target, p).error.None?
    requires CatchUpStep(s, target, p).state.ledger == s.ledger + blocks && blocks != []
    requires 0 < s.capacity && |s.cache| <= s.capacity
    ensures CatchUpStep(s, target, p).state.cache != []
  {
    var offered := Offered(s.runtime.state, s.height + 1, target, p);
    CatchUpOffers(s, target, p);
    ProcessedAllParts(s, offered);
    ProcessedAllCache(s, offered);
    assert offered == CatchUpStep(s, target, p).state.ledger[|s.ledger|..] == blocks;
  }

  lemma OnChainConcat(a: seq<CachedBlock>, b: seq<CachedBlock>, p: Poll)
    ensures OnChain(a + b, p) <==> OnChain(a, p) && OnChain(b, p)
  {
    assert forall x | x in a :: x in a + b;
    assert forall x | x in b :: x in a + b;
  }

  // ---------------------------------------------------------------- reorgs

  /** A reorg looks at nothing below its ancestor: all blocks in effect are then the client's exactly when those
      it keeps are one chain. */
  lemma ReorgFollowsExactly(s: Sync, newHeight: nat, p: Poll, floor: nat, at: (Hash, nat) -> Hash)
    requires Inv(s, floor) && ReorgStep(s, newHeight, p).error.None?
    requires ClientChain(p, newHeight, at) && Stable(p, newHeight)
    ensures PlanReorg(s, newHeight, p).Success?
    ensures RolledBack(s.ledger, PlanReorg(s, newHeight, p).value.ancestor).Some?
    ensures var kept := RolledBack(s.ledger, PlanReorg(s, newHeight, p).value.ancestor).value;
            OnChain(ReorgStep(s, newHeight, p).state.ledger, p) <==> OneChain(kept, at)
  {
    var ancestor, kept, replayed := ReorgReplaces(s, newHeight, p, floor);
    OnChainConcat(kept, replayed, p);
    assert OnChain(replayed, p);
    KeptUpTo(s.ledger, ancestor);
    AncestorIsClients(s, newHeight, p, floor);
    OnChainExactly(kept, ancestor, p, at);
  }

  lemma AncestorIsClients(s: Sync, newHeight: nat, p: Poll, floor: nat)
    requires InStep(s, floor, s.height) && PlanReorg(s, newHeight, p).Success?
    ensures RolledBack(s.ledger, PlanReorg(s, newHeight, p).value.ancestor).Some?
    ensures TipAgrees(RolledBack(s.ledger, PlanReorg(s, newHeight, p).value.ancestor).value, p)
  {
    PlanFacts(s, newHeight, p, floor);
    AgreeingIsClients(s, PlanReorg(s, newHeight, p).value.ancestor, p, floor);
  }

  lemma AgreeingIsClients(s: Sync, height: nat, p: Poll, floor: nat)
    requires InStep(s, floor, s.height) && Agrees(s, height, p)
    ensures RolledBack(s.ledger, height).Some? && TipAgrees(RolledBack(s.ledger, height).value, p)
  {
    var kept, above := LedgerSplits(s, height, floor);
    var cached := RolledBack(s.cache, height).value;
    assert cached != [] && cached[|cached| - 1] == kept[|kept| - 1];
  }

  lemma KeptIsOneChain(blocks: seq<CachedBlock>, height: nat, at: (Hash, nat) -> Hash)
    requires OneChain(blocks, at) && RolledBack(blocks, height).Some?
    ensures OneChain(RolledBack(blocks, height).value, at)
  {
  }

  // ---------------------------------------------------------------- whole runs on the client's chain

  /** The client this poll talks to has a chain up to the height the poll moves to or goes back from, and it
      does not change during the poll. */
  ghost predicate Faithful(s: Sync, p: Poll, at: (Hash, nat) -> Hash) {
    var top := PollStep(s, p).state.height;
    && (s.height < top ==> ClientChain(p, top, at) && Stable(p, top))
    && (PlanOf(s, p).Some? ==> ClientChain(p, ReorgTarget(s, p), at) && Stable(p, ReorgTarget(s, p)))
  }

  ghost predicate AlwaysFaithful(s: Sync, polls: seq<Poll>, at: (Hash, nat) -> Hash) {
    polls != [] ==>
      && AlwaysFaithful(s, polls[..|polls| - 1], at)
      && Faithful(RunSteps(s, polls[..|polls| - 1]).state, polls[|polls| - 1], at)
  }

  /** A poll that caught up or handled a reorg leaves only blocks of the client's chain in effect. */
  ghost predicate Follows(s: Sync, p: Poll) {
    s.height < PollStep(s, p).state.height || PlanOf(s, p).Some? ==> OnChain(PollStep(s, p).state.ledger, p)
  }

  ghost predicate AlwaysFollows(s: Sync, polls: seq<Poll>) {
    polls != [] ==>
      && AlwaysFollows(s, polls[..|polls| - 1])
      && Follows(RunSteps(s, polls[..|polls| - 1]).state, polls[|polls| - 1])
  }

  /** A poll only catches up when the last block in effect is the client's. */
  ghost predicate CatchesUpOnTip(s: Sync, p: Poll) {
    s.height < PollStep(s, p).state.height ==> TipAgrees(s.ledger, p)
  }

  ghost predicate AlwaysOnTip(s: Sync, polls: seq<Poll>) {
    polls != [] ==>
      && AlwaysOnTip(s, polls[..|polls| - 1])
      && CatchesUpOnTip(RunSteps(s, polls[..|polls| - 1]).state, polls[|polls| - 1])
  }

  lemma PollFollowsExactly(s: Sync, p: Poll, floor: nat, at: (Hash, nat) -> Hash)
    requires Inv(s, floor) && PollStep(s, p).error.None? && Faithful(s, p, at) && OneChain(s.ledger, at)
    ensures Follows(s, p) <==> CatchesUpOnTip(s, p)
    ensures Follows(s, p) ==> OneChain(PollStep(s, p).state.ledger, at)
  {
    var target, newHeight := PollCases(s, p);
    PollKeeps(s, p, floor);
    if PlanOf(s, p).Some? {
      ReorgStaysLinked(s, newHeight, p, floor, at);
    } else {
      CatchUpKeeps(s, target, p, floor);
      if s.height < target {
        CatchUpLinksExactly(s, target, p, floor, at);
        OnChainExactly(s.ledger, target, p, at);
      }
    }
  }

  lemma ReorgStaysLinked(s: Sync, newHeight: nat, p: Poll, floor: nat, at: (Hash, nat) -> Hash)
    requires Inv(s, floor) && ReorgStep(s, newHeight, p).error.None? && OneChain(s.ledger, at)
    requires ClientChain(p, newHeight, at) && Stable(p, newHeight)
    ensures var after := ReorgStep(s, newHeight, p).state;
            OnChain(after.ledger, p) && OneChain(after.ledger, at) && after.height == s.height
  {
    ReorgFollowsExactly(s, newHeight, p, floor, at);
    KeptIsOneChain(s.ledger, PlanReorg(s, newHeight, p).value.ancestor, at);
    ReorgKeeps(s, newHeight, p, floor);
    OnClientChain(ReorgStep(s, newHeight, p).state.ledger, newHeight, p, at);
  }

  /** Over any error-free run of any length, against any clients whose hashes fix the hashes below them: every
      poll that catches up or handles a reorg leaves just blocks of its client's chain in effect, if and only if
      every poll that catches up finds its client still has the last block in effect. Then the blocks in
      effect, and so the cached ones, are one chain. */
  lemma {:induction false} RunFollowsExactly(start: nat, capacity: nat, polls: seq<Poll>, at: (Hash, nat) -> Hash)
    requires capacity > 0 && RunSteps(Start(start, capacity), polls).error.None?
    requires AlwaysFaithful(Start(start, capacity), polls, at)
    ensures AlwaysFollows(Start(start, capacity), polls) <==> AlwaysOnTip(Start(start, capacity), polls)
    ensures AlwaysOnTip(Start(start, capacity), polls) ==>
              var s := RunSteps(Start(start, capacity), polls).state;
              OneChain(s.ledger, at) && OneChain(s.cache, at)
    decreases |polls|
  {
    if polls != [] {
      var init, p := polls[..|polls| - 1], polls[|polls| - 1];
      RunFollowsExactly(start, capacity, init, at);
      RunInvariant(start, capacity, init);
      RunInvariant(start, capacity, polls);
      var before := RunSteps(Start(start, capacity), init).state;
      if AlwaysOnTip(Start(start, capacity), init) {
        PollFollowsExactly(before, p, start, at);
      }
    }
    var s := RunSteps(Start(start, capacity), polls).state;
    if OneChain(s.ledger, at) {
      CacheIsOneChain(s, at);
    }
  }

  lemma CacheIsOneChain(s: Sync, at: (Hash, nat) -> Hash)
    requires SuffixOf(s.cache, s.ledger) && OneChain(s.ledger, at)
    ensures OneChain(s.cache, at)
  {
    var cut := |s.ledger| - |s.cache|;
    forall i, j | 0 <= i < j < |s.cache|
      ensures at(s.cache[j].hash, s.cache[i].height) == s.cache[i].hash
    {
      assert s.cache[i] == s.ledger[cut + i] && s.cache[j] == s.ledger[cut + j];
    }
  }

  // ---------------------------------------------------------------- blocks that stay

  /** If this poll handles a reorg, cache and client agree somewhere from this height up. */
  ghost predicate AgreesFrom(s: Sync, p: Poll, height: nat) {
    PlanOf(s, p).Some? ==> exists k :: height <= k <= ReorgTarget(s, p) && Agrees(s, k, p)
  }

  /** An error-free poll leaves a block in effect exactly when it handles no reorg, or cache and client agree at
      that height or above: whether the block itself is the client's plays no part. */
  lemma StaysExactly(s: Sync, p: Poll, b: CachedBlock, floor: nat)
    requires Inv(s, floor) && PollStep(s, p).error.None? && b in s.ledger
    requires PlanOf(s, p).Some? ==> Stable(p, ReorgTarget(s, p))
    ensures b in PollStep(s, p).state.ledger <==> AgreesFrom(s, p, b.height)
  {
    var target, newHeight := PollCases(s, p);
    if PlanOf(s, p).Some? {
      assert ReorgTarget(s, p) == newHeight;
      ReorgStaysExactly(s, newHeight, p, b, floor);
    } else {
      CatchUpOffers(s, target, p);
      ProcessedAllParts(s, Offered(s.runtime.state, s.height + 1, target, p));
    }
  }

  lemma ReorgStaysExactly(s: Sync, newHeight: nat, p: Poll, b: CachedBlock, floor: nat)
    requires Inv(s, floor) && ReorgStep(s, newHeight, p).error.None? && Stable(p, newHeight) && b in s.ledger
    ensures b in ReorgStep(s, newHeight, p).state.ledger
            <==> exists k :: b.height <= k <= newHeight && Agrees(s, k, p)
  {
    var ancestor, kept, replayed := ReorgReplaces(s, newHeight, p, floor);
    PlanFacts(s, newHeight, p, floor);
    KeptUpTo(s.ledger, ancestor);
    if b.height <= ancestor {
      assert b.height <= ancestor <= newHeight && Agrees(s, ancestor, p);
    } else if b in replayed {
      var above := AboveIsInCache(s, ancestor, b, floor);
      assert Agrees(s, b.height, p);
      assert false;
    }
  }

  lemma AboveIsInCache(s: Sync, ancestor: nat, b: CachedBlock, floor: nat) returns (i: nat)
    requires InStep(s, floor, s.height) && IndexOf(s.cache, ancestor).Some? && b in s.ledger && ancestor < b.height
    ensures i < |s.cache| && s.cache[i] == b && HashAt(s.cache, b.height) == Some(b.hash)
  {
    var kept, above := LedgerSplits(s, ancestor, floor);
    assert b in above && b in s.cache;
    i :| 0 <= i < |s.cache| && s.cache[i] == b;
    SuffixParts(s.cache, s.ledger);
    IndexOfUnique(s.cache, i);
  }

  /** The block is in effect now and was after every shorter run. */
  ghost predicate AlwaysIn(s: Sync, polls: seq<Poll>, b: CachedBlock) {
    && b in RunSteps(s, polls).state.ledger
    && (polls == [] || AlwaysIn(s, polls[..|polls| - 1], b))
  }

  ghost predicate AlwaysAgreesFrom(s: Sync, polls: seq<Poll>, height: nat) {
    polls != [] ==>
      && AlwaysAgreesFrom(s, polls[..|polls| - 1], height)
      && AgreesFrom(RunSteps(s, polls[..|polls| - 1]).state, polls[|polls| - 1], height)
  }

  ghost predicate ReorgsStable(s: Sync, polls: seq<Poll>) {
    polls != [] ==>
      var before, p := RunSteps(s, polls[..|polls| - 1]).state, polls[|polls| - 1];
      && ReorgsStable(s, polls[..|polls| - 1])
      && (PlanOf(before, p).Some? ==> Stable(p, ReorgTarget(before, p)))
  }

  /** Over any error-free run, a block in effect stays in effect exactly when at every reorg cache and client
      agree at its height or above. A block no client has stays for good once a client's blocks are built on it. */
  lemma {:induction false} StaysThroughoutExactly(s: Sync, polls: seq<Poll>, b: CachedBlock, floor: nat)
    requires Inv(s, floor) && RunSteps(s, polls).error.None? && ReorgsStable(s, polls) && b in s.ledger
    ensures Inv(RunSteps(s, polls).state, floor)
    ensures AlwaysIn(s, polls, b) <==> AlwaysAgreesFrom(s, polls, b.height)
    decreases |polls|
  {
    if polls != [] {
      var init, p := polls[..|polls| - 1], polls[|polls| - 1];
      StaysThroughoutExactly(s, init, b, floor);
      var before := RunSteps(s, init).state;
      PollKeeps(before, p, floor);
      if AlwaysIn(s, init, b) {
        assert b in before.ledger;
        StaysExactly(before, p, b, floor);
      }
    }
  }

  /** Whenever this poll looks, the client's hash at the current height is the cached one. */
  ghost predicate TipHolds(s: Sync, p: Poll) {
    BlockAt(s.cache, s.height).Some? ==> p.probe(s.height) == Found(BlockAt(s.cache, s.height).value.hash)
  }

  ghost predicate TipAlwaysHolds(s: Sync, polls: seq<Poll>) {
    polls != [] ==>
      && TipAlwaysHolds(s, polls[..|polls| - 1])
      && TipHolds(RunSteps(s, polls[..|polls| - 1]).state, polls[|polls| - 1])
  }

  /** While the client keeps the block at the current height, no poll handles a reorg: however long the run,
      every block in effect stays, whether or not it is on the client's chain. */
  lemma {:induction false} UnnoticedStays(s: Sync, polls: seq<Poll>)
    requires RunSteps(s, polls).error.None? && TipAlwaysHolds(s, polls)
    ensures s.ledger <= RunSteps(s, polls).state.ledger
    decreases |polls|
  {
    if polls != [] {
      var init, p := polls[..|polls| - 1], polls[|polls| - 1];
      UnnoticedStays(s, init);
      UnnoticedPoll(RunSteps(s, init).state, p);
    }
  }

  lemma UnnoticedPoll(s: Sync, p: Poll)
    requires PollStep(s, p).error.None? && TipHolds(s, p)
    ensures PlanOf(s, p).None? && s.ledger <= PollStep(s, p).state.ledger
  {
    var target, newHeight := PollCases(s, p);
    ReorgDecidedExactly(s, p.metashrewHeight.value, p.blockCount.value, p);
    CatchUpOffers(s, target, p);
    ProcessedAllParts(s, Offered(s.runtime.state, s.height + 1, target, p));
  }
}
