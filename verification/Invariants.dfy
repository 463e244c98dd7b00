/** What every error-free poll keeps: cache, message log and ledger in step, and the height moving forward. */
module Invariants {
  import opened Wrappers
  import opened BlockCaching
  import opened Runtimes
  import opened Synchronizing

  // ---------------------------------------------------------------- closed forms

  /** The blocks a poll obtains for the heights `first..=last`; heights not available are skipped. */
  function Offered(state: TransformState, first: nat, last: nat, p: Poll): seq<CachedBlock>
    decreases last + 1 - first
  {
    if first > last then []
    else
      (if p.serve(first).Found? && p.transform(first).Messages?
       then [CachedBlock(first, p.serve(first).hash, state, p.transform(first).messages)] else [])
      + Offered(state, first + 1, last, p)
  }

  function ProcessedAll(s: Sync, blocks: seq<CachedBlock>): Sync
    decreases |blocks|
  {
    if blocks == [] then s else ProcessedAll(Processed(s, blocks[0]), blocks[1..])
  }

  lemma {:induction false} OfferedShape(state: TransformState, first: nat, last: nat, p: Poll)
    ensures Increasing(Offered(state, first, last, p))
    ensures forall b | b in Offered(state, first, last, p) ::
              first <= b.height <= last && b.snapshot == state && p.serve(b.height) == Found(b.hash)
    decreases last + 1 - first
  {
    if first <= last {
      OfferedShape(state, first + 1, last, p);
    }
  }

  /** Taking the first height and then the offered rest is taking all that is offered. */
  lemma OfferedFirst(s: Sync, first: nat, last: nat, p: Poll)
    requires first <= last && BlockStep(s, first, p).error.None?
    ensures var rest := Offered(s.runtime.state, first + 1, last, p);
            ProcessedAll(BlockStep(s, first, p).state, rest)
            == ProcessedAll(s, Offered(s.runtime.state, first, last, p))
    ensures BlockStep(s, first, p).state.runtime.state == s.runtime.state
    ensures BlockStep(s, first, p).state.height == s.height
  {
    var rest := Offered(s.runtime.state, first + 1, last, p);
    if p.serve(first).Found? {
      var b := CachedBlock(first, p.serve(first).hash, s.runtime.state, p.transform(first).messages);
      assert ([b] + rest)[1..] == rest;
    } else {
      assert [] + rest == rest;
    }
  }

  lemma {:induction false} ProcessRangeOffers(s: Sync, first: nat, last: nat, p: Poll)
    requires RangeStep(s, first, last, p).error.None?
    ensures RangeStep(s, first, last, p).state == ProcessedAll(s, Offered(s.runtime.state, first, last, p))
    decreases last + 1 - first
  {
    if first <= last {
      ProcessRangeOffers(BlockStep(s, first, p).state, first + 1, last, p);
      OfferedFirst(s, first, last, p);
    }
  }

  /** A height gets through when it is not available yet, or is served, transformed and sent. */
  predicate GetsThrough(p: Poll, h: nat) {
    p.serve(h).NotAvailable? || (p.serve(h).Found? && p.transform(h).Messages? && p.blockSent(h).Accepted?)
  }

  lemma {:induction false} RangeSucceedsExactly(s: Sync, first: nat, last: nat, p: Poll)
    ensures RangeStep(s, first, last, p).error.None? <==> forall h | first <= h <= last :: GetsThrough(p, h)
    decreases last + 1 - first
  {
    if first <= last {
      assert BlockStep(s, first, p).error.None? <==> GetsThrough(p, first);
      if GetsThrough(p, first) {
        RangeSucceedsExactly(BlockStep(s, first, p).state, first + 1, last, p);
      }
    }
  }

  lemma {:induction false} CatchUpSucceedsExactly(s: Sync, target: nat, p: Poll)
    ensures CatchUpStep(s, target, p).error.None? <==> forall h | s.height < h <= target :: GetsThrough(p, h)
    decreases target - s.height
  {
    if s.height < target {
      assert BlockStep(s, s.height + 1, p).error.None? <==> GetsThrough(p, s.height + 1);
      if GetsThrough(p, s.height + 1) {
        CatchUpSucceedsExactly(BlockStep(s, s.height + 1, p).state.(height := s.height + 1), target, p);
      }
    }
  }

  lemma {:induction false} HeightApart(s: Sync, blocks: seq<CachedBlock>, height: nat)
    ensures ProcessedAll(s.(height := height), blocks) == ProcessedAll(s, blocks).(height := height)
    decreases |blocks|
  {
    if blocks != [] {
      HeightApart(Processed(s, blocks[0]), blocks[1..], height);
    }
  }

  /** Catching up is processing the same heights and then standing at the target. */
  lemma {:induction false} CatchUpOffers(s: Sync, target: nat, p: Poll)
    requires CatchUpStep(s, target, p).error.None? && s.height <= target
    ensures CatchUpStep(s, target, p).state
            == ProcessedAll(s, Offered(s.runtime.state, s.height + 1, target, p)).(height := target)
    decreases target - s.height
  {
    if s.height < target {
      var h := s.height + 1;
      var r := BlockStep(s, h, p).state;
      CatchUpOffers(r.(height := h), target, p);
      HeightApart(r, Offered(s.runtime.state, h + 1, target, p), h);
      OfferedFirst(s, h, target, p);
    }
  }

  lemma {:induction false} ProcessedAllParts(s: Sync, blocks: seq<CachedBlock>)
    ensures var r := ProcessedAll(s, blocks);
            && r.ledger == s.ledger + blocks
            && r.height == s.height && r.capacity == s.capacity && r.runtime.state == s.runtime.state
    decreases |blocks|
  {
    if blocks != [] {
      ProcessedAllParts(Processed(s, blocks[0]), blocks[1..]);
      assert s.ledger + [blocks[0]] + blocks[1..] == s.ledger + blocks;
    }
  }

  // ---------------------------------------------------------------- the invariant

  /** The cache is the end of the ledger, the ledger's heights rise within (floor, top], and each of
      its blocks is logged with the same messages and the one state there ever is. */
  ghost predicate InStep(s: Sync, floor: nat, top: nat) {
    && s.capacity > 0 && |s.cache| <= s.capacity
    && SuffixOf(s.cache, s.ledger) && Increasing(s.ledger)
    && forall b | b in s.ledger :: Recorded(s.runtime, b) && floor < b.height <= top
  }

  predicate Recorded(r: Runtime, b: CachedBlock) {
    b.height in r.log && r.log[b.height] == b.messages && b.snapshot == r.state
  }

  ghost predicate Inv(s: Sync, floor: nat) {
    InStep(s, floor, s.height) && floor <= s.height
  }

  lemma ProcessedKeeps(s: Sync, b: CachedBlock, floor: nat, top: nat)
    requires InStep(s, floor, top) && floor <= top
    requires top < b.height && b.snapshot == s.runtime.state
    ensures InStep(Processed(s, b), floor, b.height)
  {
    PushSuffix(s.cache, s.ledger, b, s.capacity);
  }

  lemma {:induction false} ProcessedAllKeeps(s: Sync, blocks: seq<CachedBlock>, floor: nat, top: nat, last: nat)
    requires InStep(s, floor, top) && floor <= top <= last
    requires Increasing(blocks)
    requires forall b | b in blocks :: top < b.height <= last && b.snapshot == s.runtime.state
    ensures InStep(ProcessedAll(s, blocks), floor, last)
    decreases |blocks|
  {
    if blocks != [] {
      var b := blocks[0];
      ProcessedKeeps(s, b, floor, top);
      assert blocks == [b] + blocks[1..];
      ProcessedAllKeeps(Processed(s, b), blocks[1..], floor, b.height, last);
    }
  }

  // ---------------------------------------------------------------- planning a reorg

  lemma {:induction false} FetchedHashes(first: nat, last: nat, p: Poll)
    requires FetchHashes(first, last, p).Success? && first <= last + 1
    ensures var hashes := FetchHashes(first, last, p).value;
            && |hashes| == last + 1 - first
            && forall i | 0 <= i < |hashes| :: hashes[i].0 == first + i && p.fetch(first + i) == Found(hashes[i].1)
    decreases last + 1 - first
  {
    if first <= last {
      FetchedHashes(first + 1, last, p);
    }
  }

  /** Client and cache agree on the block at this height. */
  predicate Agrees(s: Sync, height: nat, p: Poll) {
    p.fetch(height).Found? && HashAt(s.cache, height) == Some(p.fetch(height).hash)
  }

  /** The ancestor is the greatest height up to `newHeight` on which cache and client agree. */
  lemma AncestorAgrees(s: Sync, newHeight: nat, p: Poll)
    requires FetchHashes(0, newHeight, p).Success?
    ensures var found := CommonAncestor(s.cache, FetchHashes(0, newHeight, p).value);
            && (found.None? <==> forall h: nat | h <= newHeight :: !Agrees(s, h, p))
            && (found.Some? ==> found.value <= newHeight && Agrees(s, found.value, p)
                                && forall h: nat | found.value < h <= newHeight :: !Agrees(s, h, p))
  {
    MatchesAreAgreements(s, newHeight, p);
    BestCommonAncestor(s.cache, FetchHashes(0, newHeight, p).value);
  }

  lemma MatchesAreAgreements(s: Sync, newHeight: nat, p: Poll)
    requires FetchHashes(0, newHeight, p).Success?
    ensures forall h: nat ::
              Matches(s.cache, FetchHashes(0, newHeight, p).value, h) <==> h <= newHeight && Agrees(s, h, p)
  {
    var hashes := FetchHashes(0, newHeight, p).value;
    FetchedHashes(0, newHeight, p);
    forall h: nat
      ensures Matches(s.cache, hashes, h) <==> h <= newHeight && Agrees(s, h, p)
    {
      if h <= newHeight {
        assert hashes[h] in hashes;
      }
    }
  }

  lemma PlanFacts(s: Sync, newHeight: nat, p: Poll, floor: nat)
    requires InStep(s, floor, s.height) && PlanReorg(s, newHeight, p).Success?
    ensures var plan := PlanReorg(s, newHeight, p).value;
            && floor < plan.ancestor <= newHeight && plan.ancestor <= s.height && Agrees(s, plan.ancestor, p)
            && (forall h: nat | plan.ancestor < h <= newHeight :: !Agrees(s, h, p))
            && plan.snapshot == s.runtime.state
            && RolledBack(s.cache, plan.ancestor).Some? && RolledBack(s.ledger, plan.ancestor).Some?
            && UndoStream(s.runtime.log, s.height, plan.ancestor) == Success(plan.inverse)
  {
    var plan := PlanReorg(s, newHeight, p).value;
    AncestorAgrees(s, newHeight, p);
    var i := IndexOf(s.cache, plan.ancestor).value;
    assert s.cache[i] == s.ledger[|s.ledger| - |s.cache| + i];
    assert s.cache[i] in s.ledger;
  }

  /** The ledger splits at the ancestor: what a rollback keeps, and the blocks above it. */
  ghost predicate Split(s: Sync, ancestor: nat, kept: seq<CachedBlock>, above: seq<CachedBlock>) {
    && s.ledger == kept + above && kept != [] && kept[|kept| - 1].height == ancestor
    && RolledBack(s.ledger, ancestor) == Some(kept)
    && (forall b | b in kept :: b.height <= ancestor)
    && (forall b | b in above :: ancestor < b.height && b in s.cache)
  }

  lemma LedgerSplits(s: Sync, ancestor: nat, floor: nat) returns (kept: seq<CachedBlock>, above: seq<CachedBlock>)
    requires InStep(s, floor, s.height) && IndexOf(s.cache, ancestor).Some?
    ensures Split(s, ancestor, kept, above)
    ensures RolledBack(s.cache, ancestor).Some? && SuffixOf(RolledBack(s.cache, ancestor).value, kept)
  {
    kept, above := HistorySplits(s.cache, s.ledger, ancestor);
  }

  lemma UndoneKeeps(s: Sync, newHeight: nat, p: Poll, floor: nat)
    requires InStep(s, floor, s.height) && PlanReorg(s, newHeight, p).Success?
    ensures InStep(Undone(s, PlanReorg(s, newHeight, p).value), floor, PlanReorg(s, newHeight, p).value.ancestor)
  {
    PlanFacts(s, newHeight, p, floor);
    RollbackSimulates(s.cache, s.ledger, PlanReorg(s, newHeight, p).value.ancestor);
    RolledBackParts(s.ledger, PlanReorg(s, newHeight, p).value.ancestor);
  }

  lemma ReorgUnfolds(s: Sync, newHeight: nat, p: Poll)
    requires ReorgStep(s, newHeight, p).error.None?
    ensures PlanReorg(s, newHeight, p).Success?
    ensures var plan := PlanReorg(s, newHeight, p).value;
            ReorgStep(s, newHeight, p) == RangeStep(Undone(s, plan), plan.ancestor + 1, newHeight, p)
  {
  }

  /** A successful reorg: undo down to the ancestor, then process what the client serves. */
  lemma ReorgOffers(s: Sync, newHeight: nat, p: Poll) returns (plan: Plan, blocks: seq<CachedBlock>)
    requires ReorgStep(s, newHeight, p).error.None?
    ensures PlanReorg(s, newHeight, p) == Success(plan)
    ensures blocks == Offered(plan.snapshot, plan.ancestor + 1, newHeight, p)
    ensures ReorgStep(s, newHeight, p).state == ProcessedAll(Undone(s, plan), blocks)
  {
    ReorgUnfolds(s, newHeight, p);
    plan := PlanReorg(s, newHeight, p).value;
    blocks := Offered(plan.snapshot, plan.ancestor + 1, newHeight, p);
    ProcessRangeOffers(Undone(s, plan), plan.ancestor + 1, newHeight, p);
  }

  lemma ReorgKeeps(s: Sync, newHeight: nat, p: Poll, floor: nat)
    requires InStep(s, floor, s.height) && floor <= s.height && ReorgStep(s, newHeight, p).error.None?
    ensures InStep(ReorgStep(s, newHeight, p).state, floor, newHeight)
    ensures ReorgStep(s, newHeight, p).state.height == s.height
    ensures ReorgStep(s, newHeight, p).state.capacity == s.capacity
    ensures ReorgStep(s, newHeight, p).state.runtime.state == s.runtime.state
  {
    ReorgUnfolds(s, newHeight, p);
    var undone, ancestor := PlanUndoes(s, newHeight, p, floor);
    RangeKeeps(undone, ancestor, newHeight, p, floor);
  }

  lemma PlanUndoes(s: Sync, newHeight: nat, p: Poll, floor: nat) returns (undone: Sync, ancestor: nat)
    requires InStep(s, floor, s.height) && PlanReorg(s, newHeight, p).Success?
    ensures PlanReorg(s, newHeight, p).value.ancestor == ancestor
    ensures undone == Undone(s, PlanReorg(s, newHeight, p).value)
    ensures InStep(undone, floor, ancestor) && floor < ancestor <= newHeight
    ensures RolledBack(s.ledger, ancestor) == Some(undone.ledger)
    ensures RolledBack(s.cache, ancestor) == Some(undone.cache) && |undone.cache| <= undone.capacity
    ensures undone.height == s.height && undone.capacity == s.capacity
    ensures undone.runtime.state == s.runtime.state
  {
    UndoneParts(s, newHeight, p, floor);
    UndoneKeeps(s, newHeight, p, floor);
    undone, ancestor := Undone(s, PlanReorg(s, newHeight, p).value), PlanReorg(s, newHeight, p).value.ancestor;
  }

  lemma UndoneParts(s: Sync, newHeight: nat, p: Poll, floor: nat)
    requires InStep(s, floor, s.height) && PlanReorg(s, newHeight, p).Success?
    ensures var plan := PlanReorg(s, newHeight, p).value;
            var undone := Undone(s, plan);
            && floor < plan.ancestor <= newHeight
            && RolledBack(s.cache, plan.ancestor) == Some(undone.cache) && |undone.cache| <= undone.capacity
            && RolledBack(s.ledger, plan.ancestor) == Some(undone.ledger)
            && undone.runtime.state == s.runtime.state && undone.capacity == s.capacity && undone.height == s.height
  {
    PlanFacts(s, newHeight, p, floor);
  }

  lemma RangeKeeps(s: Sync, top: nat, last: nat, p: Poll, floor: nat)
    requires InStep(s, floor, top) && floor <= top <= last && RangeStep(s, top + 1, last, p).error.None?
    ensures InStep(RangeStep(s, top + 1, last, p).state, floor, last)
    ensures var r := RangeStep(s, top + 1, last, p).state;
            r.height == s.height && r.capacity == s.capacity && r.runtime.state == s.runtime.state
  {
    ProcessedAllParts(s, Offered(s.runtime.state, top + 1, last, p));
    ProcessRangeOffers(s, top + 1, last, p);
    OfferedShape(s.runtime.state, top + 1, last, p);
    ProcessedAllKeeps(s, Offered(s.runtime.state, top + 1, last, p), floor, top, last);
  }

  // ---------------------------------------------------------------- polls and runs

  lemma {:induction false} DeepestIsGreatest(p: Poll, top: nat)
    ensures DeepestAnswered(p, top) <= top
    ensures DeepestAnswered(p, top) > 0 ==> p.probe(DeepestAnswered(p, top)).Found?
    ensures forall h | DeepestAnswered(p, top) < h <= top :: !p.probe(h).Found?
  {
    if top > 0 && !p.probe(top).Found? {
      DeepestIsGreatest(p, top - 1);
    }
  }

  lemma ReorgBelowHeight(s: Sync, m: nat, c: nat, p: Poll)
    requires Decide(s, m, c, p).Reorg?
    ensures Decide(s, m, c, p).newHeight < s.height
  {
    if s.height > 1 {
      DeepestIsGreatest(p, s.height - 1);
    }
  }

  /** The plan this poll carries out, when it handles a reorg. */
  function PlanOf(s: Sync, p: Poll): Option<Plan> {
    if p.metashrewHeight.None? || p.blockCount.None? then None
    else match Decide(s, p.metashrewHeight.value, p.blockCount.value, p)
      case Reorg(newHeight) => (match PlanReorg(s, newHeight, p)
                                case Success(plan) => Some(plan)
                                case Failure(_) => None)
      case _ => None
  }

  /** The height the reorg of this poll goes back from. */
  function ReorgTarget(s: Sync, p: Poll): nat
    requires PlanOf(s, p).Some?
  {
    Decide(s, p.metashrewHeight.value, p.blockCount.value, p).newHeight
  }

  /** An error-free poll has a plan exactly when it decides on a reorg, and then that reorg's. */
  lemma PlanOfReorg(s: Sync, p: Poll)
    requires PollStep(s, p).error.None?
    ensures var action := Decide(s, p.metashrewHeight.value, p.blockCount.value, p);
            && (PlanOf(s, p).Some? <==> action.Reorg?)
            && (action.Reorg? ==> PlanReorg(s, action.newHeight, p) == Success(PlanOf(s, p).value)
                                  && PollStep(s, p) == ReorgStep(s, action.newHeight, p))
  {
  }

  /** An error-free poll either catches up to a target, possibly the height it has, or handles a reorg. */
  lemma PollCases(s: Sync, p: Poll) returns (target: nat, newHeight: nat)
    requires PollStep(s, p).error.None?
    ensures s.height <= target && (s.height < target ==> target <= p.metashrewHeight.value)
    ensures PlanOf(s, p).None? ==> PollStep(s, p) == CatchUpStep(s, target, p)
    ensures PlanOf(s, p).Some? ==>
              PollStep(s, p) == ReorgStep(s, newHeight, p) && PlanReorg(s, newHeight, p) == Success(PlanOf(s, p).value)
              && newHeight < s.height && Decide(s, p.metashrewHeight.value, p.blockCount.value, p) == Reorg(newHeight)
  {
    PlanOfReorg(s, p);
    var m, c := p.metashrewHeight.value, p.blockCount.value;
    target, newHeight := s.height, 0;
    match Decide(s, m, c, p) {
      case Advance => target := s.height + 1;
      case Follow(t) =>
        if t > s.height {
          target := t;
        }
      case Reorg(n) =>
        ReorgBelowHeight(s, m, c, p);
        newHeight := n;
      case Idle =>
    }
  }

  /** One error-free poll keeps the stores in step and never moves the height back or past metashrew. */
  lemma PollKeeps(s: Sync, p: Poll, floor: nat)
    requires Inv(s, floor) && PollStep(s, p).error.None?
    ensures Inv(PollStep(s, p).state, floor)
    ensures s.height <= PollStep(s, p).state.height
    ensures PollStep(s, p).state.height > s.height ==> PollStep(s, p).state.height <= p.metashrewHeight.value
    ensures PollStep(s, p).state.runtime.state == s.runtime.state
    ensures PollStep(s, p).state.capacity == s.capacity
  {
    var target, newHeight := PollCases(s, p);
    if PlanOf(s, p).Some? {
      ReorgKeeps(s, newHeight, p, floor);
    } else {
      CatchUpKeeps(s, target, p, floor);
    }
  }

  lemma CatchUpKeeps(s: Sync, target: nat, p: Poll, floor: nat)
    requires Inv(s, floor) && s.height <= target && CatchUpStep(s, target, p).error.None?
    ensures Inv(CatchUpStep(s, target, p).state, floor)
    ensures CatchUpStep(s, target, p).state.height == target
    ensures CatchUpStep(s, target, p).state.runtime.state == s.runtime.state
    ensures CatchUpStep(s, target, p).state.capacity == s.capacity
  {
    var blocks := Offered(s.runtime.state, s.height + 1, target, p);
    CatchUpOffers(s, target, p);
    OfferedShape(s.runtime.state, s.height + 1, target, p);
    ProcessedAllKeeps(s, blocks, floor, s.height, target);
    ProcessedAllParts(s, blocks);
  }

  function MaxHeight(polls: seq<Poll>, start: nat): nat {
    if polls == [] then start
    else
      var rest, last := MaxHeight(polls[..|polls| - 1], start), polls[|polls| - 1].metashrewHeight;
      if last.Some? && last.value > rest then last.value else rest
  }

  /** Over any error-free run from a fresh start: cache, log and ledger stay in step, cached heights rise
      within (start, current_height], and the height stays between start and the largest one reported. */
  lemma {:induction false} RunInvariant(start: nat, capacity: nat, polls: seq<Poll>)
    requires capacity > 0 && RunSteps(Start(start, capacity), polls).error.None?
    ensures var s := RunSteps(Start(start, capacity), polls).state;
            && Inv(s, start) && s.capacity == capacity && s.runtime.state == map[]
            && start <= s.height <= MaxHeight(polls, start)
            && Increasing(s.cache)
            && forall b | b in s.cache ::
                 start < b.height <= s.height && b.height in s.runtime.log && s.runtime.log[b.height] == b.messages
    decreases |polls|
  {
    if polls != [] {
      var init := polls[..|polls| - 1];
      RunInvariant(start, capacity, init);
      PollKeeps(RunSteps(Start(start, capacity), init).state, polls[|polls| - 1], start);
    }
    var s := RunSteps(Start(start, capacity), polls).state;
    SuffixParts(s.cache, s.ledger);
  }
}
