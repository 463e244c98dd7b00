/** When everything sent fits and gives the table the blocks in effect describe, over whole runs. */
module Consistency {
  import opened Wrappers
  import opened Cdc
  import opened BlockCaching
  import opened Runtimes
  import opened Synchronizing
  import opened Invariants

  // ---------------------------------------------------------------- logs

  function Flatten(batches: seq<seq<Message>>): seq<Message> {
    if batches == [] then [] else Flatten(batches[..|batches| - 1]) + batches[|batches| - 1]
  }

  /** Everything the sink accepted, in order. */
  function SinkLog(s: Sync): seq<Payload> {
    Payloads(Flatten(s.sent))
  }

  function BlocksLog(blocks: seq<CachedBlock>): seq<Payload> {
    Payloads(AllMessages(blocks))
  }

  lemma FlattenAppend(batches: seq<seq<Message>>, batch: seq<Message>)
    ensures Flatten(batches + [batch]) == Flatten(batches) + batch
  {
    assert (batches + [batch])[..|batches|] == batches;
  }

  lemma BlocksLogConcat(a: seq<CachedBlock>, b: seq<CachedBlock>)
    ensures BlocksLog(a + b) == BlocksLog(a) + BlocksLog(b)
  {
    AllMessagesConcat(a, b);
    PayloadsConcat(AllMessages(a), AllMessages(b));
  }

  lemma BlocksLogOne(b: CachedBlock)
    ensures BlocksLog([b]) == Payloads(b.messages)
  {
    assert AllMessages([b][..0]) == [];
  }

  lemma {:induction false} ProcessedAllLog(s: Sync, blocks: seq<CachedBlock>)
    ensures SinkLog(ProcessedAll(s, blocks)) == SinkLog(s) + BlocksLog(blocks)
    decreases |blocks|
  {
    if blocks != [] {
      var b, rest := blocks[0], blocks[1..];
      ProcessedAllLog(Processed(s, b), rest);
      FlattenAppend(s.sent, b.messages);
      PayloadsConcat(Flatten(s.sent), b.messages);
      assert blocks == [b] + rest;
      BlocksLogConcat([b], rest);
      BlocksLogOne(b);
    }
  }

  lemma UndoneLog(s: Sync, plan: Plan)
    ensures SinkLog(Undone(s, plan)) == SinkLog(s) + Payloads(plan.inverse)
  {
    FlattenAppend(s.sent, plan.inverse);
    PayloadsConcat(Flatten(s.sent), plan.inverse);
    assert SinkLog(s) + [] == SinkLog(s);
  }

  // ---------------------------------------------------------------- consistency

  /** From the base table, everything sent fits and yields what replaying the blocks in effect yields. */
  ghost predicate Consistent(s: Sync, base: Table) {
    && Valid(base, SinkLog(s)) && Valid(base, BlocksLog(s.ledger))
    && Apply(base, SinkLog(s)) == Apply(base, BlocksLog(s.ledger))
  }

  /** Replaying what the runtime logged for the heights above the ancestor, on the table of the blocks a
      rollback keeps, leads back to the table of all blocks in effect. */
  ghost predicate Replays(s: Sync, ancestor: nat, base: Table) {
    var kept := Apply(base, BlocksLog(OrElse(RolledBack(s.ledger, ancestor), s.ledger)));
    var logged := Logged(s.runtime.log, ancestor, s.height);
    Valid(kept, logged) && Apply(kept, logged) == Apply(base, BlocksLog(s.ledger))
  }

  /** Processing further blocks neither breaks nor repairs consistency. */
  lemma ProcessedFitsExactly(s: Sync, blocks: seq<CachedBlock>, base: Table)
    requires Valid(base, BlocksLog(s.ledger + blocks))
    ensures Consistent(ProcessedAll(s, blocks), base) <==> Consistent(s, base)
  {
    ProcessedAllLog(s, blocks);
    ProcessedAllParts(s, blocks);
    BlocksLogConcat(s.ledger, blocks);
    ApplyConcat(base, SinkLog(s), BlocksLog(blocks));
    ApplyConcat(base, BlocksLog(s.ledger), BlocksLog(blocks));
    if Consistent(ProcessedAll(s, blocks), base) {
      ValidInjective(Apply(base, SinkLog(s)), Apply(base, BlocksLog(s.ledger)), BlocksLog(blocks));
    }
  }

  ghost predicate LogFormed(r: Runtime) {
    forall h | h in r.log :: AllWellFormed(Payloads(r.log[h]))
  }

  lemma {:induction false} LoggedFormed(r: Runtime, ancestor: nat, height: nat)
    requires LogFormed(r)
    ensures AllWellFormed(Logged(r.log, ancestor, height))
    decreases height
  {
    if ancestor < height {
      LoggedFormed(r, ancestor, height - 1);
    }
  }

  /** Everything sent, the inverse stream included, fits and gives the table of the blocks in effect exactly
      when the logged blocks replay. */
  lemma UndoneFitsExactly(s: Sync, newHeight: nat, p: Poll, base: Table, floor: nat)
    requires InStep(s, floor, s.height) && LogFormed(s.runtime) && Consistent(s, base)
    requires PlanReorg(s, newHeight, p).Success?
    ensures var plan := PlanReorg(s, newHeight, p).value;
            Consistent(Undone(s, plan), base) <==> Replays(s, plan.ancestor, base)
  {
    PlanFacts(s, newHeight, p, floor);
    var plan := PlanReorg(s, newHeight, p).value;
    var kept, above := LedgerSplits(s, plan.ancestor, floor);
    var logged := Logged(s.runtime.log, plan.ancestor, s.height);
    UndoneLog(s, plan);
    UndoStreamInverts(s.runtime.log, s.height, plan.ancestor);
    BlocksLogConcat(kept, above);
    ApplyConcat(base, BlocksLog(kept), BlocksLog(above));
    ApplyConcat(base, SinkLog(s), Inverse(logged));
    LoggedFormed(s.runtime, plan.ancestor, s.height);
    UndoExactly(Apply(base, BlocksLog(kept)), Apply(base, SinkLog(s)), logged);
  }

  // ---------------------------------------------------------------- polls

  ghost predicate PollReplays(s: Sync, p: Poll, base: Table) {
    PlanOf(s, p).Some? ==> Replays(s, PlanOf(s, p).value.ancestor, base)
  }

  lemma PollFitsExactly(s: Sync, p: Poll, base: Table, floor: nat)
    requires Inv(s, floor) && LogFormed(s.runtime) && Consistent(s, base)
    requires PollStep(s, p).error.None? && Valid(base, BlocksLog(PollStep(s, p).state.ledger))
    ensures Consistent(PollStep(s, p).state, base) <==> PollReplays(s, p, base)
  {
    var target, newHeight := PollCases(s, p);
    if PlanOf(s, p).Some? {
      ReorgFitsExactly(s, newHeight, p, base, floor);
    } else {
      CatchUpFitsExactly(s, target, p, base);
    }
  }

  lemma ReorgFitsExactly(s: Sync, newHeight: nat, p: Poll, base: Table, floor: nat)
    requires InStep(s, floor, s.height) && LogFormed(s.runtime) && Consistent(s, base)
    requires ReorgStep(s, newHeight, p).error.None?
    requires Valid(base, BlocksLog(ReorgStep(s, newHeight, p).state.ledger))
    ensures PlanReorg(s, newHeight, p).Success?
    ensures Consistent(ReorgStep(s, newHeight, p).state, base)
            <==> Replays(s, PlanReorg(s, newHeight, p).value.ancestor, base)
  {
    var plan, blocks := ReorgOffers(s, newHeight, p);
    ProcessedAllParts(Undone(s, plan), blocks);
    ProcessedFitsExactly(Undone(s, plan), blocks, base);
    UndoneFitsExactly(s, newHeight, p, base, floor);
  }

  lemma CatchUpFitsExactly(s: Sync, target: nat, p: Poll, base: Table)
    requires s.height <= target && CatchUpStep(s, target, p).error.None?
    requires Valid(base, BlocksLog(CatchUpStep(s, target, p).state.ledger))
    ensures Consistent(CatchUpStep(s, target, p).state, base) <==> Consistent(s, base)
  {
    var blocks := Offered(s.runtime.state, s.height + 1, target, p);
    CatchUpOffers(s, target, p);
    ProcessedAllParts(s, blocks);
    ProcessedFitsExactly(s, blocks, base);
  }

  // ---------------------------------------------------------------- the log stays well formed

  /** Every logged height was logged before or holds a block in effect. */
  ghost predicate LogFrom(r: Runtime, s: Sync) {
    forall h | h in s.runtime.log ::
      (h in r.log && s.runtime.log[h] == r.log[h]) || exists b | b in s.ledger :: b.height == h
  }

  lemma {:induction false} ProcessedAllLogFrom(r: Runtime, s: Sync, blocks: seq<CachedBlock>)
    requires LogFrom(r, s)
    ensures LogFrom(r, ProcessedAll(s, blocks))
    decreases |blocks|
  {
    if blocks != [] {
      var s1 := Processed(s, blocks[0]);
      forall h | h in s1.runtime.log
        ensures (h in r.log && s1.runtime.log[h] == r.log[h]) || exists b | b in s1.ledger :: b.height == h
      {
        if h == blocks[0].height {
          assert blocks[0] in s1.ledger;
        } else if b :| b in s.ledger && b.height == h {
          assert b in s1.ledger;
        }
      }
      ProcessedAllLogFrom(r, s1, blocks[1..]);
    }
  }

  lemma PollLogFrom(s: Sync, p: Poll, floor: nat)
    requires Inv(s, floor) && PollStep(s, p).error.None?
    ensures LogFrom(s.runtime, PollStep(s, p).state)
  {
    var target, newHeight := PollCases(s, p);
    if PlanOf(s, p).Some? {
      var plan, blocks := ReorgOffers(s, newHeight, p);
      ProcessedAllLogFrom(s.runtime, Undone(s, plan), blocks);
    } else {
      CatchUpOffers(s, target, p);
      ProcessedAllLogFrom(s.runtime, s, Offered(s.runtime.state, s.height + 1, target, p));
    }
  }

  lemma BlockFormed(blocks: seq<CachedBlock>, b: CachedBlock)
    requires AllWellFormed(BlocksLog(blocks)) && b in blocks
    ensures AllWellFormed(Payloads(b.messages))
  {
    var i :| 0 <= i < |blocks| && blocks[i] == b;
    assert blocks == blocks[..i] + [b] + blocks[i + 1..];
    BlocksLogConcat(blocks[..i] + [b], blocks[i + 1..]);
    BlocksLogConcat(blocks[..i], [b]);
    BlocksLogOne(b);
    var before := |BlocksLog(blocks[..i])|;
    forall j | 0 <= j < |b.messages|
      ensures WellFormed(Payloads(b.messages)[j])
    {
      assert BlocksLog(blocks)[before + j] == Payloads(b.messages)[j];
    }
  }

  lemma PollLogFormed(s: Sync, p: Poll, base: Table, floor: nat)
    requires Inv(s, floor) && LogFormed(s.runtime)
    requires PollStep(s, p).error.None? && Valid(base, BlocksLog(PollStep(s, p).state.ledger))
    ensures LogFormed(PollStep(s, p).state.runtime)
  {
    var after := PollStep(s, p).state;
    PollLogFrom(s, p, floor);
    PollKeeps(s, p, floor);
    ValidWellFormed(base, BlocksLog(after.ledger));
    forall h | h in after.runtime.log
      ensures AllWellFormed(Payloads(after.runtime.log[h]))
    {
      if b :| b in after.ledger && b.height == h {
        assert Recorded(after.runtime, b);
        BlockFormed(after.ledger, b);
      }
    }
  }

  // ---------------------------------------------------------------- whole runs

  /** After this run and after every shorter one, the blocks in effect replay: each fitted its table. */
  ghost predicate LedgersValid(s: Sync, polls: seq<Poll>, base: Table) {
    && Valid(base, BlocksLog(RunSteps(s, polls).state.ledger))
    && (polls == [] || LedgersValid(s, polls[..|polls| - 1], base))
  }

  /** After this run and after every shorter one, everything sent fits and the sink's table is that of the
      blocks in effect. */
  ghost predicate AlwaysConsistent(s: Sync, polls: seq<Poll>, base: Table) {
    && Consistent(RunSteps(s, polls).state, base)
    && (polls == [] || AlwaysConsistent(s, polls[..|polls| - 1], base))
  }

  ghost predicate AlwaysReplays(s: Sync, polls: seq<Poll>, base: Table) {
    polls != [] ==>
      && AlwaysReplays(s, polls[..|polls| - 1], base)
      && PollReplays(RunSteps(s, polls[..|polls| - 1]).state, polls[|polls| - 1], base)
  }

  /** At every reorg of the run, all heights above the ancestor that logged messages are still cached. */
  ghost predicate AlwaysCovered(s: Sync, polls: seq<Poll>) {
    polls != [] ==>
      var before, p := RunSteps(s, polls[..|polls| - 1]).state, polls[|polls| - 1];
      && AlwaysCovered(s, polls[..|polls| - 1])
      && (PlanOf(before, p).Some? ==> Covered(before, PlanOf(before, p).value.ancestor))
  }

  lemma {:induction false} RunLogFormed(start: nat, capacity: nat, polls: seq<Poll>, base: Table)
    requires capacity > 0 && RunSteps(Start(start, capacity), polls).error.None?
    requires LedgersValid(Start(start, capacity), polls, base)
    ensures LogFormed(RunSteps(Start(start, capacity), polls).state.runtime)
    decreases |polls|
  {
    if polls != [] {
      var s, n := Start(start, capacity), |polls| - 1;
      RunLogFormed(start, capacity, polls[..n], base);
      RunInvariant(start, capacity, polls[..n]);
      PollLogFormed(RunSteps(s, polls[..n]).state, polls[n], base, start);
    }
  }

  /** Over any error-free run of any length: at every poll boundary everything sent fits and the sink's table
      is the one of the blocks in effect, exactly when each reorg met a message log that replays to that table.
      The table alone can be right where some message does not fit: `WholeRunTableExactly`. */
  lemma {:induction false} WholeRunFitsExactly(start: nat, capacity: nat, polls: seq<Poll>, base: Table)
    requires capacity > 0 && RunSteps(Start(start, capacity), polls).error.None?
    requires LedgersValid(Start(start, capacity), polls, base)
    ensures AlwaysConsistent(Start(start, capacity), polls, base)
            <==> AlwaysReplays(Start(start, capacity), polls, base)
    decreases |polls|
  {
    if polls != [] {
      var init := polls[..|polls| - 1];
      WholeRunFitsExactly(start, capacity, init, base);
      RunInvariant(start, capacity, init);
      RunLogFormed(start, capacity, init, base);
      var before := RunSteps(Start(start, capacity), init).state;
      if Consistent(before, base) {
        PollFitsExactly(before, polls[|polls| - 1], base, start);
      }
    }
  }

  // ---------------------------------------------------------------- when the log replays

  function Heights(blocks: seq<CachedBlock>): set<nat> {
    set b | b in blocks :: b.height
  }

  /** Every height above the ancestor that logged any message is still cached. */
  ghost predicate Covered(s: Sync, ancestor: nat) {
    forall h | ancestor < h <= s.height && h in s.runtime.log && s.runtime.log[h] != [] :: h in Heights(s.cache)
  }

  /** What was logged at heights that hold no block in effect: messages already undone once. */
  function Stale(log: map<nat, seq<Message>>, inEffect: set<nat>, ancestor: nat, height: nat): seq<Payload>
    decreases height
  {
    if height <= ancestor then []
    else Stale(log, inEffect, ancestor, height - 1)
         + (if height in log && height !in inEffect then Payloads(log[height]) else [])
  }

  lemma {:induction false} StaleEmpty(log: map<nat, seq<Message>>, inEffect: set<nat>, ancestor: nat, height: nat)
    ensures Stale(log, inEffect, ancestor, height) == []
            <==> forall h | ancestor < h <= height && h in log && log[h] != [] :: h in inEffect
    decreases height
  {
    if ancestor < height {
      StaleEmpty(log, inEffect, ancestor, height - 1);
    }
  }

  /** A log made of the ledger's messages and the stale ones: lengths and row counts add up. */
  ghost predicate Balanced(logged: seq<Payload>, ledgerLog: seq<Payload>, stale: seq<Payload>) {
    && |logged| == |ledgerLog| + |stale|
    && Net(logged) == Net(ledgerLog) + Net(stale)
    && (stale == [] ==> logged == ledgerLog)
  }

  lemma BalancedMore(logged: seq<Payload>, ledgerLog: seq<Payload>, stale: seq<Payload>, here: seq<Payload>)
    requires Balanced(logged, ledgerLog, stale)
    ensures Balanced(logged + here, ledgerLog + here, stale)
    ensures Balanced(logged + here, ledgerLog, stale + here)
  {
    NetConcat(logged, here);
    NetConcat(ledgerLog, here);
    NetConcat(stale, here);
  }

  /** These are the recorded blocks with heights in (ancestor, height], one for each height in effect. */
  ghost predicate Represents(
      r: Runtime, blocks: seq<CachedBlock>, inEffect: set<nat>, ancestor: nat, height: nat)
  {
    && Increasing(blocks)
    && (forall b | b in blocks :: Recorded(r, b) && ancestor < b.height <= height)
    && (forall h | ancestor < h <= height :: h in inEffect <==> h in Heights(blocks))
  }

  lemma RepresentsBelow(
      r: Runtime, blocks: seq<CachedBlock>, inEffect: set<nat>, ancestor: nat, height: nat)
    returns (init: seq<CachedBlock>)
    requires Represents(r, blocks, inEffect, ancestor, height) && ancestor < height
    ensures Represents(r, init, inEffect, ancestor, height - 1)
    ensures height !in inEffect ==> init == blocks
    ensures height in inEffect ==>
              exists b :: blocks == init + [b] && b.height == height && Recorded(r, b)
  {
    init := blocks;
    if height in inEffect {
      var b :| b in blocks && b.height == height;
      init := LastBlock(blocks, b);
    } else {
      forall b | b in blocks
        ensures b.height <= height - 1
      {
        assert b.height in Heights(blocks);
      }
    }
  }

  /** What is logged above the ancestor is what the blocks in effect say, plus the stale messages. */
  lemma {:induction false} LoggedIsLedgerAndStale(
      r: Runtime, blocks: seq<CachedBlock>, inEffect: set<nat>, ancestor: nat, height: nat)
    requires Represents(r, blocks, inEffect, ancestor, height)
    ensures Balanced(
              Logged(r.log, ancestor, height), BlocksLog(blocks), Stale(r.log, inEffect, ancestor, height))
    decreases height
  {
    if height <= ancestor {
      if blocks != [] {
        LastIsIn(blocks);
        assert false;
      }
    } else {
      var init := RepresentsBelow(r, blocks, inEffect, ancestor, height);
      LoggedIsLedgerAndStale(r, init, inEffect, ancestor, height - 1);
      if height in inEffect {
        var b :| blocks == init + [b] && b.height == height && Recorded(r, b);
        InEffectStep(r, init, b, inEffect, ancestor);
      } else {
        StaleStep(r, BlocksLog(blocks), inEffect, ancestor, height);
      }
    }
  }

  lemma InEffectStep(r: Runtime, init: seq<CachedBlock>, b: CachedBlock, inEffect: set<nat>, ancestor: nat)
    requires Recorded(r, b) && ancestor < b.height && b.height in inEffect
    requires Balanced(
               Logged(r.log, ancestor, b.height - 1), BlocksLog(init), Stale(r.log, inEffect, ancestor, b.height - 1))
    ensures Balanced(
              Logged(r.log, ancestor, b.height), BlocksLog(init + [b]), Stale(r.log, inEffect, ancestor, b.height))
  {
    var stale := Stale(r.log, inEffect, ancestor, b.height - 1);
    LogWithLast(r, init, b);
    BalancedMore(Logged(r.log, ancestor, b.height - 1), BlocksLog(init), stale, Payloads(r.log[b.height]));
    assert stale + [] == stale;
  }

  lemma StaleStep(r: Runtime, ledgerLog: seq<Payload>, inEffect: set<nat>, ancestor: nat, height: nat)
    requires ancestor < height && height !in inEffect
    requires Balanced(Logged(r.log, ancestor, height - 1), ledgerLog, Stale(r.log, inEffect, ancestor, height - 1))
    ensures Balanced(Logged(r.log, ancestor, height), ledgerLog, Stale(r.log, inEffect, ancestor, height))
  {
    var here := if height in r.log then Payloads(r.log[height]) else [];
    BalancedMore(
      Logged(r.log, ancestor, height - 1), ledgerLog, Stale(r.log, inEffect, ancestor, height - 1), here);
  }

  lemma LastIsIn(blocks: seq<CachedBlock>)
    requires blocks != []
    ensures blocks[|blocks| - 1] in blocks
  {
  }

  lemma LastBlock(blocks: seq<CachedBlock>, b: CachedBlock) returns (init: seq<CachedBlock>)
    requires Increasing(blocks) && b in blocks && forall x | x in blocks :: x.height <= b.height
    ensures blocks == init + [b] && Increasing(init)
    ensures forall x | x in init :: x in blocks && x.height < b.height
    ensures Heights(init) == Heights(blocks) - {b.height}
  {
    var i :| 0 <= i < |blocks| && blocks[i] == b;
    if i < |blocks| - 1 {
      LastIsIn(blocks);
      assert false;
    }
    init := blocks[..i];
    assert blocks == init + [b];
    assert forall x | x in blocks :: x in init || x == b;
  }

  lemma LogWithLast(r: Runtime, init: seq<CachedBlock>, b: CachedBlock)
    requires Recorded(r, b)
    ensures BlocksLog(init + [b]) == BlocksLog(init) + Payloads(r.log[b.height])
  {
    BlocksLogConcat(init, [b]);
    BlocksLogOne(b);
  }

  /** The pieces the next results share: ledger above the ancestor, what is logged there, what is stale. */
  lemma LoggedAboveAncestor(s: Sync, ancestor: nat, floor: nat)
    returns (kept: seq<CachedBlock>, above: seq<CachedBlock>, logged: seq<Payload>, stale: seq<Payload>)
    requires InStep(s, floor, s.height) && IndexOf(s.cache, ancestor).Some?
    ensures Split(s, ancestor, kept, above)
    ensures logged == Logged(s.runtime.log, ancestor, s.height)
    ensures stale == Stale(s.runtime.log, Heights(s.cache), ancestor, s.height)
    ensures Balanced(logged, BlocksLog(above), stale)
    ensures stale == [] <==> Covered(s, ancestor)
  {
    kept, above := LedgerSplits(s, ancestor, floor);
    logged := Logged(s.runtime.log, ancestor, s.height);
    stale := Stale(s.runtime.log, Heights(s.cache), ancestor, s.height);
    StaleEmpty(s.runtime.log, Heights(s.cache), ancestor, s.height);
    AboveIsCached(s, ancestor, floor, kept, above);
    LoggedIsLedgerAndStale(s.runtime, above, Heights(s.cache), ancestor, s.height);
  }

  lemma AboveIsCached(s: Sync, ancestor: nat, floor: nat, kept: seq<CachedBlock>, above: seq<CachedBlock>)
    requires InStep(s, floor, s.height) && Split(s, ancestor, kept, above)
    ensures Increasing(above)
    ensures forall b | b in above :: Recorded(s.runtime, b) && ancestor < b.height <= s.height
    ensures forall h | ancestor < h <= s.height :: h in Heights(s.cache) <==> h in Heights(above)
  {
    SuffixParts(s.cache, s.ledger);
    IncreasingSuffix(kept, above);
    assert forall b | b in above :: b in s.ledger;
    forall h | ancestor < h <= s.height
      ensures h in Heights(s.cache) <==> h in Heights(above)
    {
      if h in Heights(s.cache) {
        var b :| b in s.cache && b.height == h;
        assert b in s.ledger && b !in kept;
        assert b in above;
      }
    }
  }

  lemma IncreasingSuffix(kept: seq<CachedBlock>, above: seq<CachedBlock>)
    requires Increasing(kept + above)
    ensures Increasing(above)
  {
    assert forall i | 0 <= i < |above| :: above[i] == (kept + above)[|kept| + i];
  }

  /** The inverse stream undoes just the blocks in effect above the ancestor, in reverse, exactly when
      every height up there that logged messages is still cached. */
  lemma InverseStreamExactly(s: Sync, newHeight: nat, p: Poll, floor: nat)
    requires Inv(s, floor) && PlanReorg(s, newHeight, p).Success?
    ensures var plan := PlanReorg(s, newHeight, p).value;
            Covered(s, plan.ancestor)
            <==> exists kept, above :: Split(s, plan.ancestor, kept, above)
                                       && Payloads(plan.inverse) == Inverse(BlocksLog(above))
  {
    PlanFacts(s, newHeight, p, floor);
    var plan := PlanReorg(s, newHeight, p).value;
    var kept, above, logged, stale := LoggedAboveAncestor(s, plan.ancestor, floor);
    UndoStreamInverts(s.runtime.log, s.height, plan.ancestor);
    forall k, a | Split(s, plan.ancestor, k, a)
      ensures k == kept && a == above
    {
      assert a == s.ledger[|k|..] && above == s.ledger[|kept|..];
    }
    if Covered(s, plan.ancestor) {
      assert Split(s, plan.ancestor, kept, above) && Payloads(plan.inverse) == Inverse(BlocksLog(above));
    }
  }

  /** Multi-block undo: over any number of blocks and messages, the inverse stream then fits the table of the
      blocks in effect and gives back the ancestor's table exactly. */
  lemma MultiBlockUndo(s: Sync, newHeight: nat, p: Poll, base: Table, floor: nat)
    returns (kept: seq<CachedBlock>, above: seq<CachedBlock>)
    requires Inv(s, floor) && PlanReorg(s, newHeight, p).Success? && Valid(base, BlocksLog(s.ledger))
    requires Covered(s, PlanReorg(s, newHeight, p).value.ancestor)
    ensures Split(s, PlanReorg(s, newHeight, p).value.ancestor, kept, above)
    ensures var table, inverse := Apply(base, BlocksLog(s.ledger)), Payloads(PlanReorg(s, newHeight, p).value.inverse);
            Valid(table, inverse) && Apply(table, inverse) == Apply(base, BlocksLog(kept))
  {
    PlanFacts(s, newHeight, p, floor);
    var ancestor, logged, stale := PlanReorg(s, newHeight, p).value.ancestor, [], [];
    kept, above, logged, stale := LoggedAboveAncestor(s, ancestor, floor);
    UndoStreamInverts(s.runtime.log, s.height, ancestor);
    BlocksLogConcat(kept, above);
    ApplyConcat(base, BlocksLog(kept), BlocksLog(above));
    Undo(Apply(base, BlocksLog(kept)), BlocksLog(above));
  }

  /** If every height that logged messages is still cached, the log replays. */
  lemma CoveredReplays(s: Sync, ancestor: nat, base: Table, floor: nat)
    requires Inv(s, floor) && IndexOf(s.cache, ancestor).Some? && Covered(s, ancestor)
    requires Valid(base, BlocksLog(s.ledger))
    ensures Replays(s, ancestor, base)
  {
    var kept, above, logged, stale := LoggedAboveAncestor(s, ancestor, floor);
    BlocksLogConcat(kept, above);
    ApplyConcat(base, BlocksLog(kept), BlocksLog(above));
  }

  /** A log with stale messages can only replay if these create as many rows as they delete. */
  lemma ReplayConserves(s: Sync, ancestor: nat, base: Table, floor: nat)
    requires Inv(s, floor) && IndexOf(s.cache, ancestor).Some?
    requires Valid(base, BlocksLog(s.ledger)) && Replays(s, ancestor, base)
    ensures Net(Stale(s.runtime.log, Heights(s.cache), ancestor, s.height)) == 0
  {
    var kept, above, logged, stale := LoggedAboveAncestor(s, ancestor, floor);
    BlocksLogConcat(kept, above);
    ApplyConcat(base, BlocksLog(kept), BlocksLog(above));
    SameRowsSameNet(Apply(base, BlocksLog(kept)), BlocksLog(above), logged);
  }

  lemma SameRowsSameNet(t: Table, a: seq<Payload>, b: seq<Payload>)
    requires Valid(t, a) && Valid(t, b) && Apply(t, a) == Apply(t, b)
    ensures Net(a) == Net(b)
  {
    RowCount(t, a);
    RowCount(t, b);
  }

  predicate OnlyCreates(ps: seq<Payload>) {
    forall i | 0 <= i < |ps| :: ps[i].operation.Create?
  }

  lemma {:induction false} CreatesCount(ps: seq<Payload>)
    requires OnlyCreates(ps)
    ensures Net(ps) == |ps|
  {
    if ps != [] {
      CreatesCount(ps[1..]);
    }
  }

  /** Where the stale messages only create rows, the log replays exactly when there are none. */
  lemma CreateOnlyFitsExactly(s: Sync, ancestor: nat, base: Table, floor: nat)
    requires Inv(s, floor) && IndexOf(s.cache, ancestor).Some?
    requires Valid(base, BlocksLog(s.ledger))
    requires OnlyCreates(Stale(s.runtime.log, Heights(s.cache), ancestor, s.height))
    ensures Replays(s, ancestor, base) <==> Covered(s, ancestor)
  {
    var kept, above, logged, stale := LoggedAboveAncestor(s, ancestor, floor);
    CreatesCount(stale);
    if Replays(s, ancestor, base) {
      ReplayConserves(s, ancestor, base, floor);
    }
    if Covered(s, ancestor) {
      CoveredReplays(s, ancestor, base, floor);
    }
  }

  // ---------------------------------------------------------------- one gap

  /** Inserting a list in the middle of a valid one changes nothing exactly when it changes nothing there. */
  lemma MiddleExactly(t: Table, before: seq<Payload>, middle: seq<Payload>, after: seq<Payload>)
    requires Valid(t, before + after)
    ensures var m := Apply(t, before);
            Valid(t, before + middle + after) && Apply(t, before + middle + after) == Apply(t, before + after)
            <==> Valid(m, middle) && Apply(m, middle) == m
  {
    var m := Apply(t, before);
    ApplyConcat(t, before, after);
    ApplyConcat(t, before, middle);
    ApplyConcat(t, before + middle, after);
    if Valid(t, before + middle + after) && Apply(t, before + middle + after) == Apply(t, before + after) {
      ValidInjective(Apply(m, middle), m, after);
    }
  }

  lemma GapInReplay(base: Table, kept: seq<Payload>, low: seq<Payload>, stale: seq<Payload>, upper: seq<Payload>)
    requires Valid(base, kept + (low + upper))
    ensures var table, here := Apply(base, kept), Apply(base, kept + low);
            Valid(table, low + stale + upper) && Apply(table, low + stale + upper) == Apply(base, kept + (low + upper))
            <==> Valid(here, stale) && Apply(here, stale) == here
  {
    ApplyConcat(base, kept, low + upper);
    ApplyConcat(base, kept, low);
    MiddleExactly(Apply(base, kept), low, stale, upper);
  }

  /** Rising heights split at a height that no block has. */
  lemma SplitBelow(blocks: seq<CachedBlock>, height: nat) returns (k: nat)
    requires Increasing(blocks) && height !in Heights(blocks)
    ensures k <= |blocks|
    ensures forall b | b in blocks[..k] :: b.height < height
    ensures forall b | b in blocks[k..] :: height < b.height
  {
    k := 0;
    while k < |blocks| && blocks[k].height < height
      invariant k <= |blocks| && forall i | 0 <= i < k :: blocks[i].height < height
    {
      k := k + 1;
    }
    forall i | k <= i < |blocks|
      ensures height < blocks[i].height
    {
      assert blocks[k] in blocks && blocks[k].height in Heights(blocks);
    }
  }

  lemma GapFree(r: Runtime, blocks: seq<CachedBlock>, inEffect: set<nat>, low: nat, high: nat)
    requires Increasing(blocks) && forall b | b in blocks :: Recorded(r, b) && low < b.height <= high
    requires forall h | low < h <= high :: h in inEffect <==> h in Heights(blocks)
    requires forall h | low < h <= high && h in r.log && r.log[h] != [] :: h in inEffect
    ensures Logged(r.log, low, high) == BlocksLog(blocks)
  {
    StaleEmpty(r.log, inEffect, low, high);
    LoggedIsLedgerAndStale(r, blocks, inEffect, low, high);
  }

  lemma HeightsApart(lower: seq<CachedBlock>, upper: seq<CachedBlock>, gap: nat)
    requires forall b | b in lower :: b.height < gap
    requires forall b | b in upper :: gap < b.height
    ensures forall h | h < gap :: h in Heights(lower + upper) <==> h in Heights(lower)
    ensures forall h | gap < h :: h in Heights(lower + upper) <==> h in Heights(upper)
  {
    assert forall b | b in lower + upper :: b in lower || b in upper;
    assert forall b | b in lower :: b in lower + upper;
    assert forall b | b in upper :: b in lower + upper;
  }

  /** With a single height above the ancestor left without its block, as one earlier reorg by one block leaves
      it, the log replays exactly when that height's messages fit and have no net effect where they stand. */
  lemma OneGapFitsExactly(s: Sync, ancestor: nat, gap: nat, base: Table, floor: nat)
    returns (lower: seq<CachedBlock>, upper: seq<CachedBlock>)
    requires Inv(s, floor) && IndexOf(s.cache, ancestor).Some? && Valid(base, BlocksLog(s.ledger))
    requires ancestor < gap <= s.height && gap in s.runtime.log && gap !in Heights(s.cache)
    requires forall h | ancestor < h <= s.height && h != gap && h in s.runtime.log && s.runtime.log[h] != [] ::
               h in Heights(s.cache)
    ensures s.ledger == lower + upper
    ensures (forall b | b in lower :: b.height < gap) && (forall b | b in upper :: gap < b.height)
    ensures var here, stale := Apply(base, BlocksLog(lower)), Payloads(s.runtime.log[gap]);
            Replays(s, ancestor, base) <==> Valid(here, stale) && Apply(here, stale) == here
  {
    var kept, low;
    kept, low, upper := GapParts(s, ancestor, gap, floor);
    lower := kept + low;
    OneGapReplay(s, ancestor, gap, base, kept, low, upper);
  }

  lemma GapParts(s: Sync, ancestor: nat, gap: nat, floor: nat)
    returns (kept: seq<CachedBlock>, low: seq<CachedBlock>, upper: seq<CachedBlock>)
    requires InStep(s, floor, s.height) && IndexOf(s.cache, ancestor).Some?
    requires ancestor < gap <= s.height && gap !in Heights(s.cache)
    requires forall h | ancestor < h <= s.height && h != gap && h in s.runtime.log && s.runtime.log[h] != [] ::
               h in Heights(s.cache)
    ensures s.ledger == kept + (low + upper) == (kept + low) + upper && RolledBack(s.ledger, ancestor) == Some(kept)
    ensures (forall b | b in kept + low :: b.height < gap) && (forall b | b in upper :: gap < b.height)
    ensures Logged(s.runtime.log, ancestor, gap - 1) == BlocksLog(low)
    ensures Logged(s.runtime.log, gap, s.height) == BlocksLog(upper)
  {
    kept, low, upper := SplitAtGap(s, ancestor, gap, floor);
    GapBelow(s.runtime, low, upper, Heights(s.cache), ancestor, gap, s.height);
    GapAbove(s.runtime, low, upper, Heights(s.cache), ancestor, gap, s.height);
  }

  lemma SplitAtGap(s: Sync, ancestor: nat, gap: nat, floor: nat)
    returns (kept: seq<CachedBlock>, low: seq<CachedBlock>, upper: seq<CachedBlock>)
    requires InStep(s, floor, s.height) && IndexOf(s.cache, ancestor).Some?
    requires ancestor < gap <= s.height && gap !in Heights(s.cache)
    requires forall h | ancestor < h <= s.height && h != gap && h in s.runtime.log && s.runtime.log[h] != [] ::
               h in Heights(s.cache)
    ensures s.ledger == kept + (low + upper) && RolledBack(s.ledger, ancestor) == Some(kept)
    ensures s.ledger == (kept + low) + upper
    ensures (forall b | b in kept + low :: b.height < gap) && (forall b | b in upper :: gap < b.height)
    ensures AroundGap(s.runtime, low, upper, Heights(s.cache), ancestor, gap, s.height)
  {
    var above;
    kept, above := LedgerSplits(s, ancestor, floor);
    AboveIsCached(s, ancestor, floor, kept, above);
    var k := SplitBelow(above, gap);
    low, upper := above[..k], above[k..];
    Regroup(kept, above, k, ancestor, gap);
  }

  lemma Regroup(kept: seq<CachedBlock>, above: seq<CachedBlock>, k: nat, ancestor: nat, gap: nat)
    requires k <= |above| && ancestor < gap
    requires (forall b | b in kept :: b.height <= ancestor) && (forall b | b in above[..k] :: b.height < gap)
    ensures above == above[..k] + above[k..]
    ensures kept + above == kept + above[..k] + above[k..]
    ensures forall b | b in kept + above[..k] :: b.height < gap
    ensures (forall b | b in above[..k] :: b in above) && (forall b | b in above[k..] :: b in above)
  {
    assert forall b | b in kept + above[..k] :: b in kept || b in above[..k];
  }

  /** Blocks on both sides of a gap between two heights, all recorded, and nothing else logged there. */
  ghost predicate AroundGap(
      r: Runtime, low: seq<CachedBlock>, upper: seq<CachedBlock>, inEffect: set<nat>,
      ancestor: nat, gap: nat, height: nat)
  {
    && Increasing(low + upper) && ancestor < gap <= height
    && (forall b | b in low :: Recorded(r, b) && ancestor < b.height < gap)
    && (forall b | b in upper :: Recorded(r, b) && gap < b.height <= height)
    && (forall h | ancestor < h <= height :: h in inEffect <==> h in Heights(low + upper))
    && (forall h | ancestor < h <= height && h != gap && h in r.log && r.log[h] != [] :: h in inEffect)
  }

  lemma GapBelow(
      r: Runtime, low: seq<CachedBlock>, upper: seq<CachedBlock>, inEffect: set<nat>,
      ancestor: nat, gap: nat, height: nat)
    requires AroundGap(r, low, upper, inEffect, ancestor, gap, height)
    ensures Logged(r.log, ancestor, gap - 1) == BlocksLog(low)
  {
    HeightsApart(low, upper, gap);
    assert Increasing(low) by {
      assert forall i | 0 <= i < |low| :: low[i] == (low + upper)[i];
    }
    GapFree(r, low, inEffect, ancestor, gap - 1);
  }

  lemma GapAbove(
      r: Runtime, low: seq<CachedBlock>, upper: seq<CachedBlock>, inEffect: set<nat>,
      ancestor: nat, gap: nat, height: nat)
    requires AroundGap(r, low, upper, inEffect, ancestor, gap, height)
    ensures Logged(r.log, gap, height) == BlocksLog(upper)
  {
    HeightsApart(low, upper, gap);
    IncreasingSuffix(low, upper);
    GapFree(r, upper, inEffect, gap, height);
  }

  lemma OneGapReplay(
      s: Sync, ancestor: nat, gap: nat, base: Table,
      kept: seq<CachedBlock>, low: seq<CachedBlock>, upper: seq<CachedBlock>)
    requires s.ledger == kept + (low + upper) && RolledBack(s.ledger, ancestor) == Some(kept)
    requires ancestor < gap <= s.height && gap in s.runtime.log && Valid(base, BlocksLog(s.ledger))
    requires Logged(s.runtime.log, ancestor, gap - 1) == BlocksLog(low)
    requires Logged(s.runtime.log, gap, s.height) == BlocksLog(upper)
    ensures var here, stale := Apply(base, BlocksLog(kept + low)), Payloads(s.runtime.log[gap]);
            Replays(s, ancestor, base) <==> Valid(here, stale) && Apply(here, stale) == here
  {
    LoggedSplits(s.runtime.log, ancestor, gap, s.height);
    BlocksLogConcat(kept, low + upper);
    BlocksLogConcat(low, upper);
    BlocksLogConcat(kept, low);
    GapInReplay(base, BlocksLog(kept), BlocksLog(low), Payloads(s.runtime.log[gap]), BlocksLog(upper));
  }

  // ---------------------------------------------------------------- the sufficient condition, over whole runs

  /** Whole-run consistency: if at each reorg every height above the ancestor that logged messages is
      still cached, the sink's table is the one of the blocks in effect, throughout. */
  lemma WholeRunConsistent(start: nat, capacity: nat, polls: seq<Poll>, base: Table)
    requires capacity > 0 && RunSteps(Start(start, capacity), polls).error.None?
    requires LedgersValid(Start(start, capacity), polls, base)
    requires AlwaysCovered(Start(start, capacity), polls)
    ensures AlwaysConsistent(Start(start, capacity), polls, base)
    decreases |polls|
  {
    CoveredAlwaysReplays(start, capacity, polls, base);
    WholeRunFitsExactly(start, capacity, polls, base);
  }

  lemma {:induction false} CoveredAlwaysReplays(start: nat, capacity: nat, polls: seq<Poll>, base: Table)
    requires capacity > 0 && RunSteps(Start(start, capacity), polls).error.None?
    requires LedgersValid(Start(start, capacity), polls, base)
    requires AlwaysCovered(Start(start, capacity), polls)
    ensures AlwaysReplays(Start(start, capacity), polls, base)
    decreases |polls|
  {
    if polls != [] {
      var init, p := polls[..|polls| - 1], polls[|polls| - 1];
      CoveredAlwaysReplays(start, capacity, init, base);
      RunInvariant(start, capacity, init);
      var s := RunSteps(Start(start, capacity), init).state;
      if PlanOf(s, p).Some? {
        var newHeight := Decide(s, p.metashrewHeight.value, p.blockCount.value, p).newHeight;
        PlanFacts(s, newHeight, p, start);
        CoveredReplays(s, PlanOf(s, p).value.ancestor, base, start);
      }
    }
  }

  lemma {:induction false} AtEveryBoundary(s: Sync, polls: seq<Poll>, base: Table, n: nat)
    requires AlwaysConsistent(s, polls, base) && n <= |polls|
    ensures Consistent(RunSteps(s, polls[..n]).state, base)
    decreases |polls|
  {
    if n == |polls| {
      assert polls[..n] == polls;
    } else {
      assert polls[..|polls| - 1][..n] == polls[..n];
      AtEveryBoundary(s, polls[..|polls| - 1], base, n);
    }
  }
}
