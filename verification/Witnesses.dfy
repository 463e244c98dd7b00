/** Concrete runs: heights that cannot be undone, rows lost, inserts refused, and a reorg that goes unnoticed. */
module Witnesses {
  import opened Wrappers
  import opened Errors
  import opened Cdc
  import opened BlockCaching
  import opened Runtimes
  import opened Synchronizing
  import opened Invariants
  import opened Consistency
  import opened Reorgs
  import opened TableConsistency
  import Postgres

  // ---------------------------------------------------------------- clients and a skipped block

  /** A client on one chain, with one transform output a height, whose every send succeeds. */
  function Client(height: nat, chain: nat -> HashReply, output: nat -> TransformReply): Poll {
    Poll(Some(height), Some(height), chain, chain, chain, output, Accepted, h => Accepted)
  }

  /** Four branches: blocks 0 and 1 are common, "b" replaces the rest, "c" replaces what follows block 2 of "b",
      "d" what follows its block 4. */
  function BranchA(h: nat): HashReply { Found("a") }
  function BranchB(h: nat): HashReply { if h <= 1 then Found("a") else Found("b") }
  function BranchC(h: nat): HashReply { if h <= 2 then BranchB(h) else Found("c") }

  function BranchD(h: nat): HashReply { if h <= 4 then BranchB(h) else Found("d") }

  function Nothing(h: nat): TransformReply { Messages([]) }

  function Block(height: nat, hash: Hash, messages: seq<Message>): CachedBlock {
    CachedBlock(height, hash, map[], messages)
  }

  /** Block 2 of branch "a" is not available when its turn comes. */
  const SKIPPING := Client(3, BranchA, Nothing).(serve := h => if h == 2 then NotAvailable else Found("a"))
  const SKIPPED := Sync(3, 6, [Block(1, "a", []), Block(3, "a", [])],
                        Runtime(3, "a", map[], map[1 := [], 3 := []]),
                        [[], []], [Block(1, "a", []), Block(3, "a", [])])

  lemma SkippingPoll()
    ensures PollStep(Start(0, 6), SKIPPING) == Step(SKIPPED, None)
  {
    var s1 := Processed(Start(0, 6), Block(1, "a", [])).(height := 1);
    assert Processed(s1.(height := 2), Block(3, "a", [])).(height := 3) == SKIPPED;
    assert CatchUpStep(s1.(height := 2), 3, SKIPPING) == CatchUpStep(SKIPPED, 3, SKIPPING);
    assert CatchUpStep(s1, 3, SKIPPING) == CatchUpStep(s1.(height := 2), 3, SKIPPING);
    assert CatchUpStep(Start(0, 6), 3, SKIPPING) == CatchUpStep(s1, 3, SKIPPING);
  }

  /** Such a run: block 2 was not available, and the reorg that follows, two blocks deep, cannot be handled
      although its ancestor is cached. */
  lemma SkippedBlockStopsReorg()
    ensures var before := RunSteps(Start(0, 6), [SKIPPING]);
            && before.error.None?
            && RunSteps(Start(0, 6), [SKIPPING, Client(3, BranchB, Nothing)])
               == Step(before.state, Some(NoMessagesFor(2)))
  {
    var s0, reorg := Start(0, 6), Client(3, BranchB, Nothing);
    SkippingPoll();
    SkippedDivergenceFound();
    SkippedPlanFails();
    assert [SKIPPING, reorg][..1] == [SKIPPING] && [SKIPPING][..0] == [];
    assert RunSteps(s0, []) == Step(s0, None) && RunSteps(s0, [SKIPPING]) == Step(SKIPPED, None);
    assert PollStep(SKIPPED, reorg) == Step(SKIPPED, Some(NoMessagesFor(2)));
  }

  lemma SkippedDivergenceFound()
    ensures Decide(SKIPPED, 3, 3, Client(3, BranchB, Nothing)) == Reorg(2)
  {
    IndexOfUnique(SKIPPED.cache, 1);
  }

  lemma SkippedPlanFails()
    ensures PlanReorg(SKIPPED, 2, Client(3, BranchB, Nothing)) == Failure(NoMessagesFor(2))
  {
    var reorg := Client(3, BranchB, Nothing);
    IndexOfUnique(SKIPPED.cache, 0);
    IndexOfUnique(SKIPPED.cache, 1);
    PlanOutcome(SKIPPED, 2, reorg);
    assert IsAncestor(SKIPPED, 2, reorg, 1) && IsUnlogged(SKIPPED, 1, 2);
  }

  // ---------------------------------------------------------------- a second reorg

  const VALUE := Object(map["balance" := Number(1)])
  const ROW := Message(Header("transform", 0, None), Payload(Create, "balances", "alice", None, Some(VALUE)))
  const GONE := Message(Header("transform", 0, None), InvertPayload(ROW.payload))

  /** What the transform emits: in block 1, in block 3 of branch "a", and in block 2 of branch "b". */
  datatype Emitted = Emitted(common: seq<Message>, stale: Message, other: seq<Message>)

  function OutputA(e: Emitted): nat -> TransformReply {
    h => Messages(if h == 1 then e.common else if h == 3 then [e.stale] else [])
  }

  function OutputB(e: Emitted): nat -> TransformReply { h => Messages(if h == 2 then e.other else []) }

  function First(e: Emitted): Poll { Client(3, BranchA, OutputA(e)) }
  function Second(e: Emitted): Poll { Client(3, BranchB, OutputB(e)) }
  function Third(e: Emitted): Poll { Client(4, BranchB, OutputB(e)) }
  const FOURTH := Client(4, BranchC, Nothing)

  function Polls(e: Emitted): seq<Poll> { [First(e), Second(e), Third(e), FOURTH] }

  function Undo3(e: Emitted): seq<Message> { [InvertMessage(e.stale, 2)] }

  function ChainA(e: Emitted): seq<CachedBlock> {
    [Block(1, "a", e.common), Block(2, "a", []), Block(3, "a", [e.stale])]
  }

  function ChainB(e: Emitted): seq<CachedBlock> { [Block(1, "a", e.common), Block(2, "b", e.other)] }

  function S1(e: Emitted): Sync {
    Sync(3, 6, ChainA(e), Runtime(3, "a", map[], map[1 := e.common, 2 := [], 3 := [e.stale]]),
         [e.common, [], [e.stale]], ChainA(e))
  }

  function S2(e: Emitted): Sync {
    Sync(3, 6, ChainB(e), Runtime(2, "b", map[], map[1 := e.common, 2 := e.other, 3 := [e.stale]]),
         [e.common, [], [e.stale], Undo3(e), e.other], ChainB(e))
  }

  function S3(e: Emitted): Sync {
    Sync(4, 6, ChainB(e) + [Block(4, "b", [])],
         Runtime(4, "b", map[], map[1 := e.common, 2 := e.other, 3 := [e.stale], 4 := []]),
         [e.common, [], [e.stale], Undo3(e), e.other, []], ChainB(e) + [Block(4, "b", [])])
  }

  function S4(e: Emitted): Sync {
    Sync(4, 6, ChainB(e) + [Block(3, "c", [])],
         Runtime(3, "c", map[], map[1 := e.common, 2 := e.other, 3 := [], 4 := []]),
         [e.common, [], [e.stale], Undo3(e), e.other, [], Undo3(e), []], ChainB(e) + [Block(3, "c", [])])
  }

  lemma FirstPoll(e: Emitted)
    ensures PollStep(Start(0, 6), First(e)) == Step(S1(e), None)
  {
    var s1 := Processed(Start(0, 6), Block(1, "a", e.common)).(height := 1);
    var s2 := Processed(s1, Block(2, "a", [])).(height := 2);
    var s3 := Processed(s2, Block(3, "a", [e.stale])).(height := 3);
    assert CatchUpStep(s2, 3, First(e)) == CatchUpStep(s3, 3, First(e)) == Step(s3, None);
    assert CatchUpStep(s1, 3, First(e)) == CatchUpStep(s2, 3, First(e));
    assert CatchUpStep(Start(0, 6), 3, First(e)) == CatchUpStep(s1, 3, First(e));
  }

  lemma UndoOneMore(log: map<nat, seq<Message>>, height: nat, ancestor: nat, rest: seq<Message>, all: seq<Message>)
    requires ancestor < height && height in log && UndoStream(log, height - 1, ancestor) == Success(rest)
    requires InvertBlock(log[height], height - 1) + rest == all
    ensures UndoStream(log, height, ancestor) == Success(all)
  {
  }

  lemma SecondPlan(e: Emitted)
    ensures PlanReorg(S1(e), 2, Second(e)) == Success(Plan(1, map[], Undo3(e)))
  {
    FetchFails(0, 2, Second(e));
    AncestorAgrees(S1(e), 2, Second(e));
    assert Agrees(S1(e), 1, Second(e)) && !Agrees(S1(e), 2, Second(e));
    SecondUndo(e);
  }

  lemma SecondUndo(e: Emitted)
    ensures UndoStream(S1(e).runtime.log, 3, 1) == Success(Undo3(e))
  {
    var log := S1(e).runtime.log;
    assert InvertBlock(log[2], 1) == [] && InvertBlock(log[3], 2) == Undo3(e);
    assert UndoStream(log, 1, 1) == Success([]);
    UndoOneMore(log, 2, 1, [], []);
    UndoOneMore(log, 3, 1, [], Undo3(e));
  }

  /** Block 3 of branch "a" is undone, block 2 of branch "b" processed; height 3 stays empty. */
  lemma SecondPoll(e: Emitted)
    ensures PollStep(S1(e), Second(e)) == Step(S2(e), None)
  {
    IndexOfUnique(S1(e).cache, 2);
    assert Decide(S1(e), 3, 3, Second(e)) == Reorg(2);
    SecondPlan(e);
    var undone := Undone(S1(e), Plan(1, map[], Undo3(e)));
    assert IndexOf(S1(e).cache, 1) == Some(0);
    assert undone.cache == [Block(1, "a", e.common)];
    assert Processed(undone, Block(2, "b", e.other)) == S2(e);
    assert RangeStep(undone, 2, 2, Second(e)) == RangeStep(S2(e), 3, 2, Second(e));
  }

  lemma ThirdPoll(e: Emitted)
    ensures PollStep(S2(e), Third(e)) == Step(S3(e), None)
  {
    assert Processed(S2(e), Block(4, "b", [])).(height := 4) == S3(e);
    assert CatchUpStep(S2(e), 4, Third(e)) == CatchUpStep(S3(e), 4, Third(e));
  }

  lemma FourthPlan(e: Emitted)
    ensures PlanReorg(S3(e), 3, FOURTH) == Success(Plan(2, map[], Undo3(e)))
    ensures IndexOf(S3(e).cache, 2) == Some(1)
  {
    FetchFails(0, 3, FOURTH);
    AncestorAgrees(S3(e), 3, FOURTH);
    IndexOfUnique(S3(e).cache, 1);
    assert IndexOf(S3(e).cache, 3) == None;
    assert Agrees(S3(e), 2, FOURTH) && !Agrees(S3(e), 3, FOURTH);
    FourthUndo(e);
  }

  lemma FourthUndo(e: Emitted)
    ensures UndoStream(S3(e).runtime.log, 4, 2) == Success(Undo3(e))
  {
    var log := S3(e).runtime.log;
    assert InvertBlock(log[4], 3) == [] && InvertBlock(log[3], 2) == Undo3(e);
    assert UndoStream(log, 2, 2) == Success([]);
    UndoOneMore(log, 3, 2, [], Undo3(e));
    UndoOneMore(log, 4, 2, Undo3(e), Undo3(e));
  }

  /** The stale messages of block 3 are undone a second time. */
  lemma FourthPoll(e: Emitted)
    ensures PollStep(S3(e), FOURTH) == Step(S4(e), None)
  {
    IndexOfUnique(S3(e).cache, 2);
    assert Decide(S3(e), 4, 4, FOURTH) == Reorg(3);
    FourthPlan(e);
    var undone := Undone(S3(e), Plan(2, map[], Undo3(e)));
    assert undone.cache == ChainB(e);
    assert Processed(undone, Block(3, "c", [])) == S4(e);
    assert RangeStep(undone, 3, 3, FOURTH) == RangeStep(S4(e), 4, 3, FOURTH);
  }

  lemma FourPolls(e: Emitted)
    ensures var s0, all := Start(0, 6), Polls(e);
            && all[..4] == all && all[..4][..3] == all[..3] && all[..3][..2] == all[..2]
            && all[..2][..1] == all[..1] && all[..1][..0] == []
            && RunSteps(s0, []) == Step(s0, None) && RunSteps(s0, all[..1]) == Step(S1(e), None)
            && RunSteps(s0, all[..2]) == Step(S2(e), None) && RunSteps(s0, all[..3]) == Step(S3(e), None)
            && RunSteps(s0, all) == Step(S4(e), None)
  {
    FirstPoll(e);
    SecondPoll(e);
    ThirdPoll(e);
    FourthPoll(e);
    var s0, all := Start(0, 6), Polls(e);
    assert all[..1][..0] == [] && RunSteps(s0, []) == Step(s0, None);
    assert all[..2][..1] == all[..1] && RunSteps(s0, all[..1]) == Step(S1(e), None);
    assert all[..3][..2] == all[..2] && RunSteps(s0, all[..2]) == Step(S2(e), None);
    assert all[..4] == all && all[..4][..3] == all[..3] && RunSteps(s0, all[..3]) == Step(S3(e), None);
  }

  lemma ChainLogs(e: Emitted)
    ensures BlocksLog([]) == [] && BlocksLog(ChainA(e)) == Payloads(e.common) + [e.stale.payload]
    ensures BlocksLog(S2(e).ledger) == BlocksLog(S3(e).ledger) == BlocksLog(S4(e).ledger)
            == Payloads(e.common) + Payloads(e.other)
  {
    var one := [Block(1, "a", e.common)];
    assert one[..0] == [];
    assert AllMessages(one) == e.common;
    assert ChainA(e)[..2] == one + [Block(2, "a", [])] && (one + [Block(2, "a", [])])[..1] == one;
    assert AllMessages(ChainA(e)) == e.common + [e.stale];
    assert ChainB(e)[..1] == one;
    assert AllMessages(ChainB(e)) == e.common + e.other;
    assert S3(e).ledger[..2] == ChainB(e) && S4(e).ledger[..2] == ChainB(e);
    assert AllMessages(S3(e).ledger) == AllMessages(S4(e).ledger) == e.common + e.other;
    PayloadsConcat(e.common, [e.stale]);
    PayloadsConcat(e.common, e.other);
  }

  /** Everything the sink is sent, in the three parts of the run. */
  function SentFirst(e: Emitted): seq<Payload> { Payloads(e.common) + [e.stale.payload] }
  function SentSecond(e: Emitted): seq<Payload> {
    SentFirst(e) + [InvertPayload(e.stale.payload)] + Payloads(e.other)
  }
  function SentFourth(e: Emitted): seq<Payload> { SentSecond(e) + [InvertPayload(e.stale.payload)] }

  lemma SentMore(s: Sync, sent: seq<seq<Message>>, batch: seq<Message>)
    requires s.sent == sent + [batch]
    ensures SinkLog(s) == SinkLog(s.(sent := sent)) + Payloads(batch)
  {
    FlattenAppend(sent, batch);
    PayloadsConcat(Flatten(sent), batch);
  }

  lemma SinkLogs(e: Emitted)
    ensures SinkLog(S1(e)) == SentFirst(e)
    ensures SinkLog(S2(e)) == SinkLog(S3(e)) == SentSecond(e)
    ensures SinkLog(S4(e)) == SentFourth(e)
  {
    var none: seq<Message> := [];
    var s := S1(e);
    SentMore(s.(sent := [e.common]), [], e.common);
    SentMore(s.(sent := [e.common, none]), [e.common], none);
    SentMore(s, [e.common, none], [e.stale]);
    SentMore(S2(e).(sent := s.sent + [Undo3(e)]), s.sent, Undo3(e));
    SentMore(S2(e), s.sent + [Undo3(e)], e.other);
    SentMore(S3(e), S2(e).sent, none);
    SentMore(S4(e).(sent := S3(e).sent + [Undo3(e)]), S3(e).sent, Undo3(e));
    SentMore(S4(e), S3(e).sent + [Undo3(e)], none);
  }

  const NONE: Table := map[]
  const ALICE: Table := map[("balances", "alice") := VALUE]

  lemma OneMore(t: Table, ps: seq<Payload>, p: Payload)
    ensures Apply(t, ps + [p]) == ApplyOne(Apply(t, ps), p)
    ensures Valid(t, ps + [p]) <==> Valid(t, ps) && Fits(Apply(t, ps), p)
  {
    ApplyConcat(t, ps, [p]);
    ApplySingle(Apply(t, ps), p);
  }

  lemma FourLedgersValid(e: Emitted)
    requires Valid(NONE, Payloads(e.common) + [e.stale.payload])
    requires Valid(NONE, Payloads(e.common) + Payloads(e.other))
    ensures LedgersValid(Start(0, 6), Polls(e), NONE)
  {
    var s0, all := Start(0, 6), Polls(e);
    FourPolls(e);
    ChainLogs(e);
    assert LedgersValid(s0, [], NONE) && LedgersValid(s0, all[..1], NONE);
    assert LedgersValid(s0, all[..2], NONE) && LedgersValid(s0, all[..3], NONE);
  }

  lemma FourSameTables(e: Emitted)
    requires Apply(NONE, Payloads(e.common) + Payloads(e.other))
             == Apply(NONE, SentSecond(e)) == Apply(NONE, SentFourth(e))
    ensures AlwaysSameTable(Start(0, 6), Polls(e), NONE)
  {
    var s0, all := Start(0, 6), Polls(e);
    FourPolls(e);
    ChainLogs(e);
    SinkLogs(e);
    assert AlwaysSameTable(s0, [], NONE) && AlwaysSameTable(s0, all[..1], NONE);
    assert AlwaysSameTable(s0, all[..2], NONE) && AlwaysSameTable(s0, all[..3], NONE);
  }

  /** The row is created in block 3 of branch "a" but already in block 2 of branch "b". */
  const LOSING := Emitted([], ROW, [ROW])

  /** The row is created in block 3 of branch "a" only. */
  const UNFITTING := Emitted([], ROW, [])

  /** The row is created in block 1 and deleted in block 3 of branch "a" only. */
  const COLLIDING := Emitted([ROW], GONE, [])

  lemma RowTables()
    ensures var c, d := ROW.payload, GONE.payload;
            && Valid(NONE, [c]) && Apply(NONE, [c]) == ALICE
            && Valid(NONE, [c] + [d]) && Apply(NONE, [c] + [d]) == NONE
            && Valid(NONE, [c] + [d] + [c]) && Apply(NONE, [c] + [d] + [c]) == ALICE
            && Valid(NONE, [c] + [d] + [c] + [d]) && Apply(NONE, [c] + [d] + [c] + [d]) == NONE
            && !Valid(NONE, [c] + [d] + [d]) && Apply(NONE, [c] + [d] + [d]) == NONE
            && !Valid(NONE, [c] + [d] + [c] + [c]) && Apply(NONE, [c] + [d] + [c] + [c]) == ALICE
  {
    var c, d := ROW.payload, GONE.payload;
    assert ApplyOne(NONE, c) == ALICE == ApplyOne(ALICE, c) && ApplyOne(ALICE, d) == NONE == ApplyOne(NONE, d);
    ApplySingle(NONE, c);
    OneMore(NONE, [c], d);
    OneMore(NONE, [c] + [d], c);
    OneMore(NONE, [c] + [d], d);
    OneMore(NONE, [c] + [d] + [c], d);
    OneMore(NONE, [c] + [d] + [c], c);
  }

  /** Whole-run consistency without coverage is false: in this error-free run every block fits its table and
      every message sent fits the sink's, yet block 2 is in effect and its row is gone from the sink. */
  lemma SecondReorgLosesRow()
    ensures var run := RunSteps(Start(0, 6), Polls(LOSING));
            && run.error.None?
            && LedgersValid(Start(0, 6), Polls(LOSING), NONE)
            && Valid(NONE, SinkLog(run.state)) && Apply(NONE, SinkLog(run.state)) == NONE
            && TableOf(NONE, run.state.ledger) == ALICE
            && !AlwaysSameTable(Start(0, 6), Polls(LOSING), NONE)
            && !AlwaysConsistent(Start(0, 6), Polls(LOSING), NONE)
  {
    var c, d := ROW.payload, GONE.payload;
    FourPolls(LOSING);
    ChainLogs(LOSING);
    SinkLogs(LOSING);
    RowTables();
    assert [] + [c] == [c] && SentFourth(LOSING) == [c] + [d] + [c] + [d];
    FourLedgersValid(LOSING);
  }

  /** Fitting is more than the table needs: with nothing in block 2 the second delete finds no row and changes
      nothing, so the tables are the same throughout although that message does not fit. */
  lemma SecondReorgDoesNotFit()
    ensures RunSteps(Start(0, 6), Polls(UNFITTING)).error.None?
    ensures LedgersValid(Start(0, 6), Polls(UNFITTING), NONE)
    ensures AlwaysSameTable(Start(0, 6), Polls(UNFITTING), NONE)
    ensures !AlwaysConsistent(Start(0, 6), Polls(UNFITTING), NONE)
    ensures !AlwaysReplays(Start(0, 6), Polls(UNFITTING), NONE)
  {
    var c, d := ROW.payload, GONE.payload;
    FourPolls(UNFITTING);
    SinkLogs(UNFITTING);
    RowTables();
    assert [] + [c] == [c] && [] + [] == Payloads([]);
    assert SentSecond(UNFITTING) == [c] + [d] && SentFourth(UNFITTING) == [c] + [d] + [d];
    FourLedgersValid(UNFITTING);
    FourSameTables(UNFITTING);
    WholeRunFitsExactly(0, 6, Polls(UNFITTING), NONE);
  }

  /** A keyed table takes what Postgres refuses: the delete of block 3 is undone twice, the second time inserting
      a row that is there. The keyed table is right throughout, but the statements cannot all be executed. */
  lemma SecondReorgCollides()
    ensures var run := RunSteps(Start(0, 6), Polls(COLLIDING));
            && run.error.None?
            && LedgersValid(Start(0, 6), Polls(COLLIDING), NONE)
            && AlwaysSameTable(Start(0, 6), Polls(COLLIDING), NONE)
            && Postgres.Exec(map[], SinkLog(run.state)).None?
  {
    var c, d := ROW.payload, GONE.payload;
    FourPolls(COLLIDING);
    SinkLogs(COLLIDING);
    RowTables();
    assert InvertPayload(d) == c;
    assert Payloads([ROW]) == [c] && [c] + Payloads([]) == [c];
    assert SentSecond(COLLIDING) == [c] + [d] + [c] && SentFourth(COLLIDING) == [c] + [d] + [c] + [c];
    FourLedgersValid(COLLIDING);
    FourSameTables(COLLIDING);
    CollidingInsert();
  }

  lemma CollidingInsert()
    ensures Postgres.Exec(map[], [ROW.payload] + [GONE.payload] + [ROW.payload] + [ROW.payload]).None?
  {
    var c, d := ROW.payload, GONE.payload;
    var none: Postgres.Database := map[];
    var alice: Postgres.Database := map[("balances", "alice") := VALUE.fields];
    assert "balance" in VALUE.fields && KeyOf(c) == KeyOf(d) == ("balances", "alice");
    assert Postgres.ExecOne(none, c) == Some(alice) && Postgres.ExecOne(alice, c) == None;
    assert Postgres.ExecOne(alice, d) == Some(none);
    Postgres.ExecSingle(none, c);
    Postgres.ExecSingle(alice, d);
    Postgres.ExecSingle(alice, c);
    Postgres.ExecConcat(none, [c], [d]);
    Postgres.ExecConcat(none, [c] + [d], [c]);
    Postgres.ExecConcat(none, [c] + [d] + [c], [c]);
  }

  // ---------------------------------------------------------------- a chain that reorganized and grew

  /** The hash at a height of the chain that ends in a hash: it determines the hashes below it. */
  function At(x: Hash, h: nat): Hash {
    if h <= 1 then "a" else if x == "d" && h <= 4 then "b" else x
  }

  /** Branch "b" has replaced blocks 2 and 3 and is one block longer. */
  const GROWING := Client(4, BranchB, Nothing)
  const GROWING_ON := Client(5, BranchB, Nothing)

  /** Then block 5 is replaced. */
  const FORKING := Client(5, BranchD, Nothing)

  const GROWN := Sync(4, 6, ChainA(LOSING) + [Block(4, "b", [])],
                      Runtime(4, "b", map[], map[1 := [], 2 := [], 3 := [ROW], 4 := []]),
                      [[], [], [ROW], []], ChainA(LOSING) + [Block(4, "b", [])])
  const GROWN_ON := Sync(5, 6, ChainA(LOSING) + [Block(4, "b", []), Block(5, "b", [])],
                         Runtime(5, "b", map[], map[1 := [], 2 := [], 3 := [ROW], 4 := [], 5 := []]),
                         [[], [], [ROW], [], []], ChainA(LOSING) + [Block(4, "b", []), Block(5, "b", [])])

  lemma GrowingPolls()
    ensures PollStep(S1(LOSING), GROWING) == Step(GROWN, None)
    ensures PollStep(GROWN, GROWING) == Step(GROWN, None)
    ensures PollStep(GROWN, GROWING_ON) == Step(GROWN_ON, None)
  {
    var s := S1(LOSING);
    assert Processed(s, Block(4, "b", [])).(height := 4) == GROWN;
    assert CatchUpStep(s, 4, GROWING) == CatchUpStep(GROWN, 4, GROWING);
    IndexOfUnique(GROWN.cache, 3);
    var longer := GROWN.cache + [Block(5, "b", [])];
    assert longer == GROWN_ON.cache && GROWN.sent + [[]] == GROWN_ON.sent;
    assert Processed(GROWN, Block(5, "b", [])).(height := 5) == GROWN_ON;
    assert CatchUpStep(GROWN, 5, GROWING_ON) == CatchUpStep(GROWN_ON, 5, GROWING_ON);
  }

  /** A reorg to a longer branch goes unnoticed: the client is on one chain whose hashes determine those below
      them, and so are the blocks in effect, until the first poll that finds the longer branch builds it on the
      old one. The same poll again does nothing. Blocks 2 and 3 of branch "a" stay in effect and the row of
      block 3 at the sink, although no block of the client's chain creates one. */
  lemma GrownReorgUnnoticed()
    ensures var s0 := Start(0, 6);
            var before, after := RunSteps(s0, [First(LOSING)]), RunSteps(s0, [First(LOSING), GROWING]);
            && before.error.None? && after.error.None?
            && ClientChain(GROWING, 4, At) && Stable(GROWING, 4)
            && OneChain(before.state.ledger, At) && !OneChain(after.state.ledger, At)
            && after.state.ledger == before.state.ledger + [Block(4, "b", [])]
            && RunSteps(s0, [First(LOSING), GROWING, GROWING]) == after
            && Apply(NONE, SinkLog(after.state)) == ALICE && BlocksLog(Offered(map[], 1, 4, GROWING)) == []
  {
    GrowingRuns();
    GrownBranches();
    GrownTables();
  }

  lemma GrowingRuns()
    ensures RunSteps(Start(0, 6), [First(LOSING)]) == Step(S1(LOSING), None)
    ensures RunSteps(Start(0, 6), [First(LOSING), GROWING]) == Step(GROWN, None)
    ensures RunSteps(Start(0, 6), [First(LOSING), GROWING, GROWING]) == Step(GROWN, None)
    ensures RunSteps(Start(0, 6), [First(LOSING), GROWING, GROWING_ON]) == Step(GROWN_ON, None)
  {
    FirstPoll(LOSING);
    GrowingPolls();
    var s0, x := Start(0, 6), First(LOSING);
    assert [x][..0] == [] && RunSteps(s0, []) == Step(s0, None);
    assert [x, GROWING][..1] == [x] && RunSteps(s0, [x]) == Step(S1(LOSING), None);
    assert [x, GROWING, GROWING][..2] == [x, GROWING] == [x, GROWING, GROWING_ON][..2];
    assert RunSteps(s0, [x, GROWING]) == Step(GROWN, None);
  }

  lemma GrownBranches()
    ensures ClientChain(GROWING, 4, At) && Stable(GROWING, 4)
    ensures OneChain(S1(LOSING).ledger, At) && !OneChain(GROWN.ledger, At)
  {
    assert GROWN.ledger[3].hash == "b" && GROWN.ledger[2] == Block(3, "a", [ROW]) && At("b", 3) == "b";
  }

  lemma GrownTables()
    ensures Apply(NONE, SinkLog(GROWN)) == ALICE
    ensures BlocksLog(Offered(map[], 1, 4, GROWING)) == []
  {
    SinkLogs(LOSING);
    SentMore(GROWN, S1(LOSING).sent, []);
    RowTables();
    assert SentFirst(LOSING) == [ROW.payload] && [ROW.payload] + Payloads([]) == [ROW.payload];
    NothingOffered(1, 4, GROWING);
  }

  lemma {:induction false} NothingOffered(first: nat, last: nat, p: Poll)
    requires forall h :: p.transform(h) == Messages([])
    ensures BlocksLog(Offered(map[], first, last, p)) == []
    decreases last + 1 - first
  {
    if first <= last {
      NothingOffered(first + 1, last, p);
      var rest := Offered(map[], first + 1, last, p);
      if p.serve(first).Found? {
        var b := CachedBlock(first, p.serve(first).hash, map[], []);
        BlocksLogConcat([b], rest);
        BlocksLogOne(b);
      } else {
        assert [] + rest == rest;
      }
    }
  }

  /** From there the ancestor of a later reorg is not the fork point: with block 5 replaced, block 4 is found
      and kept, and below it blocks 2 and 3, which the client never had on that chain. */
  lemma LaterAncestorIsNoFork()
    ensures RunSteps(Start(0, 6), [First(LOSING), GROWING, GROWING_ON]) == Step(GROWN_ON, None)
    ensures ClientChain(FORKING, 5, At) && Decide(GROWN_ON, 5, 5, FORKING) == Reorg(4)
    ensures IsAncestor(GROWN_ON, 4, FORKING, 4)
    ensures !Agrees(GROWN_ON, 2, FORKING) && !Agrees(GROWN_ON, 3, FORKING)
  {
    GrowingRuns();
    ForkingDecision();
  }

  lemma ForkingDecision()
    ensures ClientChain(FORKING, 5, At) && Decide(GROWN_ON, 5, 5, FORKING) == Reorg(4)
    ensures IsAncestor(GROWN_ON, 4, FORKING, 4)
    ensures !Agrees(GROWN_ON, 2, FORKING) && !Agrees(GROWN_ON, 3, FORKING)
  {
    ForkingTip();
    AgreesAt(1, FORKING);
    AgreesAt(2, FORKING);
    AgreesAt(3, FORKING);
  }

  lemma ForkingTip()
    ensures Decide(GROWN_ON, 5, 5, FORKING) == Reorg(4)
  {
    IndexOfUnique(GROWN_ON.cache, 4);
  }

  lemma AgreesAt(i: nat, p: Poll)
    requires i < 5
    ensures Agrees(GROWN_ON, i + 1, p) <==> p.fetch(i + 1) == Found(GROWN_ON.cache[i].hash)
  {
    assert GROWN_ON.cache[i].height == i + 1;
    IndexOfUnique(GROWN_ON.cache, i);
  }
}
