/** What one poll, one block and one reorg do, case by case, in terms of the answers of the outside world. */
module Polls {
  import opened Wrappers
  import opened Errors
  import opened Cdc
  import opened BlockCaching
  import opened Runtimes
  import opened Synchronizing
  import opened Invariants
  import opened Reorgs

  // ---------------------------------------------------------------- one block

  /** The cache with one block more, the oldest gone if it was full. */
  predicate Grown(after: seq<CachedBlock>, before: seq<CachedBlock>, b: CachedBlock, capacity: nat)
    requires 0 < capacity
  {
    after == (if |before| < capacity then before else before[1..]) + [b]
  }

  /** A height that is not available is skipped, and one the client fails on stops the poll; nothing changes. */
  lemma UnservedBlock(s: Sync, height: nat, p: Poll)
    requires !p.serve(height).Found?
    ensures BlockStep(s, height, p)
            == Step(s, if p.serve(height).NotAvailable? then None else Some(ClientFailed))
  {
  }

  /** A failed transform leaves the runtime at the new height and hash; nothing is logged, cached or sent. */
  lemma UntransformedBlock(s: Sync, height: nat, p: Poll)
    requires p.serve(height).Found? && p.transform(height).TransformError?
    ensures var r := BlockStep(s, height, p);
            && r.error == Some(TransformFailed)
            && r.state.runtime.height == height && r.state.runtime.hash == p.serve(height).hash
            && r.state.runtime.log == s.runtime.log && r.state.runtime.state == s.runtime.state
            && r.state.height == s.height && r.state.capacity == s.capacity
            && r.state.cache == s.cache && r.state.sent == s.sent && r.state.ledger == s.ledger
  {
  }

  /** A transformed block is logged and cached before it is sent, so also when the sink then refuses it. */
  lemma TransformedBlock(s: Sync, height: nat, p: Poll)
    requires p.serve(height).Found? && p.transform(height).Messages? && 0 < s.capacity && |s.cache| <= s.capacity
    ensures var r, messages := BlockStep(s, height, p), p.transform(height).messages;
            var b := CachedBlock(height, p.serve(height).hash, s.runtime.state, messages);
            && r.state.runtime == Runtime(height, b.hash, s.runtime.state, s.runtime.log[height := messages])
            && Grown(r.state.cache, s.cache, b, s.capacity)
            && r.state.height == s.height && r.state.capacity == s.capacity
            && match p.blockSent(height)
               case Accepted =>
                 r.error.None? && r.state.sent == s.sent + [messages] && r.state.ledger == s.ledger + [b]
               case Refused(n) =>
                 && r.error == Some(SinkFailed) && r.state.ledger == s.ledger
                 && r.state.sent == s.sent + [messages[..if n < |messages| then n else |messages|]]
  {
    var messages := p.transform(height).messages;
    assert messages[..|messages|] == messages;
  }

  // ---------------------------------------------------------------- several blocks

  /** A range that fails stops at the first height that does not get through, having processed those below. */
  lemma {:induction false} RangeFails(s: Sync, first: nat, last: nat, p: Poll) returns (h: nat, before: Sync)
    requires RangeStep(s, first, last, p).error.Some?
    ensures first <= h <= last && !GetsThrough(p, h) && forall k | first <= k < h :: GetsThrough(p, k)
    ensures if h == first then before == s else RangeStep(s, first, h - 1, p) == Step(before, None)
    ensures RangeStep(s, first, last, p) == BlockStep(before, h, p)
    decreases last + 1 - first
  {
    var r := BlockStep(s, first, p);
    if r.error.Some? {
      h, before := first, s;
    } else {
      h, before := RangeFails(r.state, first + 1, last, p);
      assert RangeStep(s, first, h - 1, p) == RangeStep(r.state, first + 1, h - 1, p);
    }
  }

  /** Catching up that fails leaves `current_height` just below the first height that did not get through. */
  lemma {:induction false} CatchUpFails(s: Sync, target: nat, p: Poll) returns (h: nat, before: Sync)
    requires CatchUpStep(s, target, p).error.Some?
    ensures s.height < h <= target && !GetsThrough(p, h) && forall k | s.height < k < h :: GetsThrough(p, k)
    ensures CatchUpStep(s, h - 1, p) == Step(before, None)
    ensures CatchUpStep(s, target, p) == BlockStep(before, h, p)
    ensures before.height == h - 1 == CatchUpStep(s, target, p).state.height
    decreases target - s.height
  {
    var r := BlockStep(s, s.height + 1, p);
    if r.error.Some? {
      h, before := s.height + 1, s;
    } else {
      h, before := CatchUpFails(r.state.(height := s.height + 1), target, p);
      assert CatchUpStep(s, h - 1, p) == CatchUpStep(r.state.(height := s.height + 1), h - 1, p);
    }
  }

  function Batches(blocks: seq<CachedBlock>): seq<seq<Message>> {
    seq(|blocks|, i requires 0 <= i < |blocks| => blocks[i].messages)
  }

  /** Processing blocks sends one batch a block in order and leaves the runtime at the last of them, each logged
      under its height. */
  lemma {:induction false} ProcessedAllSends(s: Sync, blocks: seq<CachedBlock>)
    ensures var after := ProcessedAll(s, blocks);
            && after.sent == s.sent + Batches(blocks)
            && after.runtime.height == (if blocks == [] then s.runtime.height else blocks[|blocks| - 1].height)
            && after.runtime.hash == (if blocks == [] then s.runtime.hash else blocks[|blocks| - 1].hash)
    decreases |blocks|
  {
    if blocks != [] {
      ProcessedAllSends(Processed(s, blocks[0]), blocks[1..]);
      assert Batches(blocks) == [blocks[0].messages] + Batches(blocks[1..]);
    } else {
      assert Batches(blocks) == [];
    }
  }

  lemma {:induction false} ProcessedAllLogs(s: Sync, blocks: seq<CachedBlock>)
    requires Increasing(blocks)
    ensures var log := ProcessedAll(s, blocks).runtime.log;
            && (forall b | b in blocks :: b.height in log && log[b.height] == b.messages)
            && forall h | forall b | b in blocks :: b.height != h ::
                 (h in log <==> h in s.runtime.log) && (h in log ==> log[h] == s.runtime.log[h])
    decreases |blocks|
  {
    if blocks != [] {
      var b, rest := blocks[0], blocks[1..];
      assert blocks == [b] + rest && forall x | x in rest :: b.height < x.height;
      ProcessedAllLogs(Processed(s, b), rest);
    }
  }

  // ---------------------------------------------------------------- one poll

  /** Without the height or the block count nothing happens. */
  lemma PollUnanswered(s: Sync, p: Poll)
    requires p.metashrewHeight.None? || p.blockCount.None?
    ensures PollStep(s, p) == Step(s, Some(ClientFailed))
  {
  }

  /** Where a poll is to stand, if metashrew reports `m` and the client counts `c` blocks. */
  function EndHeight(height: nat, m: nat, c: nat): nat {
    if m <= height then height
    else if c <= height then height + 1
    else if m < c then m
    else c
  }

  /** With a greater height reported, a poll only catches up: by one block if the count is not above the current
      height, and to the smaller of height and count otherwise. */
  lemma PollCatchesUp(s: Sync, p: Poll)
    requires p.metashrewHeight.Some? && p.blockCount.Some? && s.height < p.metashrewHeight.value
    ensures s.height < EndHeight(s.height, p.metashrewHeight.value, p.blockCount.value)
    ensures PollStep(s, p) == CatchUpStep(s, EndHeight(s.height, p.metashrewHeight.value, p.blockCount.value), p)
  {
  }

  /** With no greater height reported, a poll compares the hash at the current height. It does nothing if no block
      is cached there or the hash is the cached one, and handles a reorg from the height below if it differs. If
      the client does not answer, it handles one from the greatest lower height, from 1 up, that the client
      answers for, or from 0; but at height 1 it does nothing. */
  lemma PollLooksBack(s: Sync, p: Poll) returns (n: nat)
    requires p.metashrewHeight.Some? && p.blockCount.Some? && p.metashrewHeight.value <= s.height
    ensures s.height == 0 || BlockAt(s.cache, s.height).None? ==> PollStep(s, p) == Step(s, None)
    ensures 0 < s.height && BlockAt(s.cache, s.height).Some? ==>
              var cached := BlockAt(s.cache, s.height).value.hash;
              && (p.probe(s.height) == Found(cached) ==> PollStep(s, p) == Step(s, None))
              && (p.probe(s.height).Found? && p.probe(s.height).hash != cached ==>
                    PollStep(s, p) == ReorgStep(s, s.height - 1, p))
              && (!p.probe(s.height).Found? && s.height == 1 ==> PollStep(s, p) == Step(s, None))
              && (!p.probe(s.height).Found? && 1 < s.height ==> PollStep(s, p) == ReorgStep(s, n, p))
    ensures 1 < s.height ==>
              n < s.height && (n == 0 || p.probe(n).Found?) && forall k | n < k < s.height :: !p.probe(k).Found?
  {
    n := 0;
    if 1 < s.height {
      n := DeepestAnswered(p, s.height - 1);
      DeepestIsGreatest(p, s.height - 1);
    }
    LookBack(s, p.metashrewHeight.value, p.blockCount.value, p);
  }

  lemma LookBack(s: Sync, m: nat, c: nat, p: Poll)
    requires m <= s.height
    ensures Decide(s, m, c, p)
            == if s.height == 0 then Follow(0)
               else if BlockAt(s.cache, s.height).None?
                       || p.probe(s.height) == Found(BlockAt(s.cache, s.height).value.hash)
                       || (!p.probe(s.height).Found? && s.height == 1) then Idle
               else if p.probe(s.height).Found? then Reorg(s.height - 1)
               else Reorg(DeepestAnswered(p, s.height - 1))
  {
  }

  /** Where every error-free poll ends, exactly. */
  lemma PollEndsAt(s: Sync, p: Poll)
    requires PollStep(s, p).error.None?
    ensures p.metashrewHeight.Some? && p.blockCount.Some?
    ensures PollStep(s, p).state.height == EndHeight(s.height, p.metashrewHeight.value, p.blockCount.value)
  {
    var target := EndHeight(s.height, p.metashrewHeight.value, p.blockCount.value);
    if s.height < p.metashrewHeight.value {
      PollCatchesUp(s, p);
      CatchUpHeight(s, target, p);
    } else {
      var n := PollLooksBack(s, p);
      ReorgFailsCleanly(s, n, p);
      if 0 < s.height {
        ReorgFailsCleanly(s, s.height - 1, p);
      }
    }
  }

  // ---------------------------------------------------------------- one reorg

  /** What a reorg sends first, and the state it restores. */
  lemma PlanContents(s: Sync, newHeight: nat, p: Poll)
    requires PlanReorg(s, newHeight, p).Success?
    ensures var plan := PlanReorg(s, newHeight, p).value;
            && BlockAt(s.cache, plan.ancestor).Some? && plan.snapshot == BlockAt(s.cache, plan.ancestor).value.snapshot
            && UndoesAll(plan.inverse, LoggedMessages(s.runtime.log, plan.ancestor, s.height))
  {
    var plan := PlanReorg(s, newHeight, p).value;
    assert UndoStream(s.runtime.log, s.height, plan.ancestor) == Success(plan.inverse);
    UndoStreamStamps(s.runtime.log, s.height, plan.ancestor);
  }

  /** A successful reorg sends the inverse messages in one batch, if there are any, and then one batch a replayed
      block. The runtime ends at the last replayed block, or at the ancestor's height with the old hash if none
      was, and in the ancestor's state. */
  lemma ReorgEnds(s: Sync, newHeight: nat, p: Poll) returns (plan: Plan, blocks: seq<CachedBlock>)
    requires ReorgStep(s, newHeight, p).error.None?
    ensures PlanReorg(s, newHeight, p) == Success(plan)
    ensures blocks == Offered(plan.snapshot, plan.ancestor + 1, newHeight, p)
    ensures var after := ReorgStep(s, newHeight, p).state;
            && after.sent == s.sent + (if plan.inverse == [] then [] else [plan.inverse]) + Batches(blocks)
            && after.runtime.height == (if blocks == [] then plan.ancestor else blocks[|blocks| - 1].height)
            && after.runtime.hash == (if blocks == [] then s.runtime.hash else blocks[|blocks| - 1].hash)
            && after.runtime.state == plan.snapshot
            && after.height == s.height && after.capacity == s.capacity
  {
    plan, blocks := ReorgOffers(s, newHeight, p);
    ProcessedAllSends(Undone(s, plan), blocks);
    ProcessedAllParts(Undone(s, plan), blocks);
  }
}
