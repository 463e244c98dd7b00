/** From the chain to the database: a whole run of the synchronizer feeding a batching Postgres sink. */
module EndToEnd {
  import opened Wrappers
  import opened Cdc
  import opened BlockCaching
  import opened Runtimes
  import opened Synchronizing
  import opened Invariants
  import opened Consistency
  import opened TableConsistency
  import opened Reorgs
  import opened Divergence
  import Postgres

  type Columns = string -> set<string>

  ghost predicate AllConform(s: Sync, columns: Columns) {
    && Postgres.Conforms(SinkLog(s), columns)
    && forall h | h in s.runtime.log :: Postgres.Conforms(Payloads(s.runtime.log[h]), columns)
  }

  /** Whatever the transform emits names the columns of its tables. */
  ghost predicate EmitsColumns(p: Poll, columns: Columns) {
    forall h | p.transform(h).Messages? :: Postgres.Conforms(Payloads(p.transform(h).messages), columns)
  }

  lemma ConformsConcat(a: seq<Payload>, b: seq<Payload>, columns: Columns)
    requires Postgres.Conforms(a, columns) && Postgres.Conforms(b, columns)
    ensures Postgres.Conforms(a + b, columns)
  {
  }

  lemma {:induction false} OfferedConform(state: TransformState, first: nat, last: nat, p: Poll, columns: Columns)
    requires EmitsColumns(p, columns)
    ensures forall b | b in Offered(state, first, last, p) :: Postgres.Conforms(Payloads(b.messages), columns)
    decreases last + 1 - first
  {
    if first <= last {
      OfferedConform(state, first + 1, last, p, columns);
    }
  }

  lemma {:induction false} ProcessedAllConform(s: Sync, blocks: seq<CachedBlock>, columns: Columns)
    requires AllConform(s, columns)
    requires forall b | b in blocks :: Postgres.Conforms(Payloads(b.messages), columns)
    ensures AllConform(ProcessedAll(s, blocks), columns)
    decreases |blocks|
  {
    if blocks != [] {
      var b := blocks[0];
      assert b in blocks && forall x | x in blocks[1..] :: x in blocks;
      FlattenAppend(s.sent, b.messages);
      PayloadsConcat(Flatten(s.sent), b.messages);
      ConformsConcat(SinkLog(s), Payloads(b.messages), columns);
      ProcessedAllConform(Processed(s, b), blocks[1..], columns);
    }
  }

  lemma {:induction false} LoggedConform(s: Sync, ancestor: nat, height: nat, columns: Columns)
    requires AllConform(s, columns)
    ensures Postgres.Conforms(Logged(s.runtime.log, ancestor, height), columns)
    decreases height
  {
    if ancestor < height {
      LoggedConform(s, ancestor, height - 1, columns);
      if height in s.runtime.log {
        ConformsConcat(Logged(s.runtime.log, ancestor, height - 1), Payloads(s.runtime.log[height]), columns);
      }
    }
  }

  lemma UndoneConform(s: Sync, newHeight: nat, p: Poll, floor: nat, columns: Columns)
    requires InStep(s, floor, s.height) && PlanReorg(s, newHeight, p).Success? && AllConform(s, columns)
    ensures AllConform(Undone(s, PlanReorg(s, newHeight, p).value), columns)
  {
    var plan := PlanReorg(s, newHeight, p).value;
    PlanFacts(s, newHeight, p, floor);
    UndoStreamInverts(s.runtime.log, s.height, plan.ancestor);
    LoggedConform(s, plan.ancestor, s.height, columns);
    Postgres.InverseConforms(Logged(s.runtime.log, plan.ancestor, s.height), columns);
    UndoneLog(s, plan);
    ConformsConcat(SinkLog(s), Payloads(plan.inverse), columns);
  }

  lemma PollConforms(s: Sync, p: Poll, floor: nat, columns: Columns)
    requires Inv(s, floor) && PollStep(s, p).error.None? && AllConform(s, columns) && EmitsColumns(p, columns)
    ensures AllConform(PollStep(s, p).state, columns)
  {
    var target, newHeight := PollCases(s, p);
    if PlanOf(s, p).Some? {
      ReorgConforms(s, newHeight, p, floor, columns);
    } else {
      CatchUpConforms(s, target, p, columns);
    }
  }

  lemma ReorgConforms(s: Sync, newHeight: nat, p: Poll, floor: nat, columns: Columns)
    requires InStep(s, floor, s.height) && ReorgStep(s, newHeight, p).error.None?
    requires AllConform(s, columns) && EmitsColumns(p, columns)
    ensures AllConform(ReorgStep(s, newHeight, p).state, columns)
  {
    ReorgUnfolds(s, newHeight, p);
    UndoneConform(s, newHeight, p, floor, columns);
    var undone, first := Undone(s, PlanReorg(s, newHeight, p).value), PlanReorg(s, newHeight, p).value.ancestor + 1;
    ProcessRangeOffers(undone, first, newHeight, p);
    OfferedConform(undone.runtime.state, first, newHeight, p, columns);
    ProcessedAllConform(undone, Offered(undone.runtime.state, first, newHeight, p), columns);
  }

  lemma CatchUpConforms(s: Sync, target: nat, p: Poll, columns: Columns)
    requires s.height <= target && CatchUpStep(s, target, p).error.None?
    requires AllConform(s, columns) && EmitsColumns(p, columns)
    ensures AllConform(CatchUpStep(s, target, p).state, columns)
  {
    CatchUpOffers(s, target, p);
    OfferedConform(s.runtime.state, s.height + 1, target, p, columns);
    ProcessedAllConform(s, Offered(s.runtime.state, s.height + 1, target, p), columns);
  }

  lemma {:induction false} RunConforms(start: nat, capacity: nat, polls: seq<Poll>, columns: Columns)
    requires capacity > 0 && RunSteps(Start(start, capacity), polls).error.None?
    requires forall p | p in polls :: EmitsColumns(p, columns)
    ensures AllConform(RunSteps(Start(start, capacity), polls).state, columns)
    decreases |polls|
  {
    if polls != [] {
      var init, p := polls[..|polls| - 1], polls[|polls| - 1];
      assert p in polls && forall q | q in init :: q in polls;
      RunConforms(start, capacity, init, columns);
      RunInvariant(start, capacity, init);
      PollConforms(RunSteps(Start(start, capacity), init).state, p, start, columns);
    }
  }

  // ---------------------------------------------------------------- when the database takes a whole run

  /** The value the sink's keyed table has for a row. */
  function SinkAt(s: Sync, base: Table, k: Key): Option<Json> {
    Lookup(Apply(base, SinkLog(s)), k)
  }

  /** What this poll sends inserts no row that is there: undoing the logged deletes and replaying blocks in a
      reorg, processing blocks otherwise. */
  ghost predicate PollInserts(s: Sync, p: Poll, base: Table) {
    if PlanOf(s, p).Some? then ReorgInserts(s, PlanOf(s, p).value, ReorgTarget(s, p), p, base)
    else
      var blocks := Offered(s.runtime.state, s.height + 1, PollStep(s, p).state.height, p);
      Postgres.InsertsNew(Apply(base, SinkLog(s)), BlocksLog(blocks))
  }

  ghost predicate ReorgInserts(s: Sync, plan: Plan, newHeight: nat, p: Poll, base: Table) {
    var logged := Logged(s.runtime.log, plan.ancestor, s.height);
    forall k ::
      && Postgres.UndoesAt(SinkAt(s, base, k), logged, k)
      && Postgres.InsertsAt(RewoundAt(SinkAt(s, base, k), logged, k), Replayed(plan, newHeight, p), k)
  }

  ghost predicate AlwaysInserts(s: Sync, polls: seq<Poll>, base: Table) {
    polls != [] ==>
      && AlwaysInserts(s, polls[..|polls| - 1], base)
      && PollInserts(RunSteps(s, polls[..|polls| - 1]).state, polls[|polls| - 1], base)
  }

  /** What an error-free poll adds to the log of the sink. */
  lemma PollSends(s: Sync, p: Poll, floor: nat) returns (more: seq<Payload>)
    requires Inv(s, floor) && PollStep(s, p).error.None?
    ensures SinkLog(PollStep(s, p).state) == SinkLog(s) + more
    ensures PlanOf(s, p).None? ==>
              more == BlocksLog(Offered(s.runtime.state, s.height + 1, PollStep(s, p).state.height, p))
    ensures PlanOf(s, p).Some? ==>
              var plan := PlanOf(s, p).value;
              more == Inverse(Logged(s.runtime.log, plan.ancestor, s.height)) + Replayed(plan, ReorgTarget(s, p), p)
  {
    var target, newHeight := PollCases(s, p);
    if PlanOf(s, p).Some? {
      var plan;
      plan, more := ReorgSends(s, newHeight, p);
      assert ReorgTarget(s, p) == newHeight;
    } else {
      var blocks := Offered(s.runtime.state, s.height + 1, target, p);
      CatchUpOffers(s, target, p);
      ProcessedAllLog(s, blocks);
      more := BlocksLog(blocks);
    }
  }

  lemma ReorgSends(s: Sync, newHeight: nat, p: Poll) returns (plan: Plan, more: seq<Payload>)
    requires ReorgStep(s, newHeight, p).error.None?
    ensures PlanReorg(s, newHeight, p) == Success(plan)
    ensures SinkLog(ReorgStep(s, newHeight, p).state) == SinkLog(s) + more
    ensures more == Inverse(Logged(s.runtime.log, plan.ancestor, s.height)) + Replayed(plan, newHeight, p)
  {
    var blocks;
    plan, blocks := ReorgOffers(s, newHeight, p);
    InverseIs(s, newHeight, p, plan);
    more := Inverse(Logged(s.runtime.log, plan.ancestor, s.height)) + Replayed(plan, newHeight, p);
    PlanSends(s, plan, blocks, ReorgStep(s, newHeight, p).state, more);
  }

  lemma PlanSends(s: Sync, plan: Plan, blocks: seq<CachedBlock>, after: Sync, more: seq<Payload>)
    requires after == ProcessedAll(Undone(s, plan), blocks) && more == Payloads(plan.inverse) + BlocksLog(blocks)
    ensures SinkLog(after) == SinkLog(s) + more
  {
    UndoneLog(s, plan);
    ReplayedLog(SinkLog(s), Payloads(plan.inverse), Undone(s, plan), blocks);
  }

  lemma InverseIs(s: Sync, newHeight: nat, p: Poll, plan: Plan)
    requires PlanReorg(s, newHeight, p) == Success(plan)
    ensures Payloads(plan.inverse) == Inverse(Logged(s.runtime.log, plan.ancestor, s.height))
  {
    assert UndoStream(s.runtime.log, s.height, plan.ancestor) == Success(plan.inverse);
    UndoStreamInverts(s.runtime.log, s.height, plan.ancestor);
  }

  lemma ReplayedLog(log: seq<Payload>, inverse: seq<Payload>, undone: Sync, blocks: seq<CachedBlock>)
    requires SinkLog(undone) == log + inverse
    ensures SinkLog(ProcessedAll(undone, blocks)) == log + (inverse + BlocksLog(blocks))
  {
    ProcessedAllLog(undone, blocks);
    assert log + inverse + BlocksLog(blocks) == log + (inverse + BlocksLog(blocks));
  }

  lemma UndoThenReplayInserts(v: Option<Json>, logged: seq<Payload>, replayed: seq<Payload>, k: Key)
    ensures Postgres.InsertsAt(v, Inverse(logged) + replayed, k)
            <==> Postgres.UndoesAt(v, logged, k) && Postgres.InsertsAt(RewoundAt(v, logged, k), replayed, k)
  {
    Postgres.InsertsConcat(v, Inverse(logged), replayed, k);
    Postgres.InverseInserts(v, logged, k);
  }

  lemma PollInsertsExactly(s: Sync, p: Poll, base: Table, floor: nat) returns (more: seq<Payload>)
    requires Inv(s, floor) && PollStep(s, p).error.None?
    ensures SinkLog(PollStep(s, p).state) == SinkLog(s) + more
    ensures PollInserts(s, p, base) <==> Postgres.InsertsNew(Apply(base, SinkLog(s)), more)
  {
    more := PollSends(s, p, floor);
    if PlanOf(s, p).Some? {
      var plan := PlanOf(s, p).value;
      var logged := Logged(s.runtime.log, plan.ancestor, s.height);
      forall k
        ensures Postgres.InsertsAt(Lookup(Apply(base, SinkLog(s)), k), more, k)
                <==> && Postgres.UndoesAt(SinkAt(s, base, k), logged, k)
                     && Postgres.InsertsAt(
                          RewoundAt(SinkAt(s, base, k), logged, k), Replayed(plan, ReorgTarget(s, p), p), k)
      {
        UndoThenReplayInserts(SinkAt(s, base, k), logged, Replayed(plan, ReorgTarget(s, p), p), k);
      }
    }
  }

  /** Over any error-free run, whatever the transform emits over the columns of its tables: the database can
      execute everything sent, if and only if no poll inserts a row that is there; and then its rows are those
      of the sink's keyed table. */
  lemma {:induction false} RunExecutesExactly(
      start: nat, capacity: nat, polls: seq<Poll>, base: Table, database: Postgres.Database, columns: Columns)
    requires capacity > 0 && RunSteps(Start(start, capacity), polls).error.None?
    requires Postgres.Mirrors(database, base) && Postgres.RowsConform(database, columns)
    requires forall p | p in polls :: EmitsColumns(p, columns)
    ensures var log := SinkLog(RunSteps(Start(start, capacity), polls).state);
            && (Postgres.Exec(database, log).Some? <==> AlwaysInserts(Start(start, capacity), polls, base))
            && (Postgres.Exec(database, log).Some? ==>
                  Postgres.Mirrors(Postgres.Exec(database, log).value, Apply(base, log))
                  && Postgres.RowsConform(Postgres.Exec(database, log).value, columns))
    decreases |polls|
  {
    if polls != [] {
      var init, p := polls[..|polls| - 1], polls[|polls| - 1];
      assert p in polls && forall q | q in init :: q in polls;
      RunExecutesExactly(start, capacity, init, base, database, columns);
      RunInvariant(start, capacity, init);
      RunConforms(start, capacity, init, columns);
      PollExecutesExactly(RunSteps(Start(start, capacity), init).state, p, start, base, database, columns);
    } else {
      assert SinkLog(Start(start, capacity)) == [];
    }
  }

  lemma PollExecutesExactly(
      s: Sync, p: Poll, floor: nat, base: Table, database: Postgres.Database, columns: Columns)
    requires Inv(s, floor) && PollStep(s, p).error.None? && AllConform(s, columns) && EmitsColumns(p, columns)
    requires Postgres.Mirrors(database, base) && Postgres.RowsConform(database, columns)
    ensures var log := SinkLog(PollStep(s, p).state);
            && (Postgres.Exec(database, log).Some?
                <==> Postgres.Exec(database, SinkLog(s)).Some? && PollInserts(s, p, base))
            && (Postgres.Exec(database, log).Some? ==>
                  Postgres.Mirrors(Postgres.Exec(database, log).value, Apply(base, log))
                  && Postgres.RowsConform(Postgres.Exec(database, log).value, columns))
  {
    var more := PollInsertsExactly(s, p, base, floor);
    PollConforms(s, p, floor, columns);
    ExecMore(database, base, SinkLog(s), more, columns);
  }

  /** If a list can be executed, the list and more can exactly when what follows inserts no row left there. */
  lemma ExecMore(
      d: Postgres.Database, base: Table, log: seq<Payload>, more: seq<Payload>, columns: Columns)
    requires Postgres.Mirrors(d, base) && Postgres.RowsConform(d, columns) && Postgres.Conforms(log + more, columns)
    ensures Postgres.Exec(d, log + more).Some?
            <==> Postgres.Exec(d, log).Some? && Postgres.InsertsNew(Apply(base, log), more)
    ensures Postgres.Exec(d, log + more).Some? ==>
              Postgres.Mirrors(Postgres.Exec(d, log + more).value, Apply(base, log + more))
              && Postgres.RowsConform(Postgres.Exec(d, log + more).value, columns)
  {
    ConformsParts(log, more, columns);
    Postgres.ExecConcat(d, log, more);
    ApplyConcat(base, log, more);
    Postgres.ExecSucceedsExactly(d, base, log, columns);
    if Postgres.Exec(d, log).Some? {
      Postgres.ExecSucceedsExactly(Postgres.Exec(d, log).value, Apply(base, log), more, columns);
    }
  }

  lemma ConformsParts(a: seq<Payload>, b: seq<Payload>, columns: Columns)
    requires Postgres.Conforms(a + b, columns)
    ensures Postgres.Conforms(a, columns) && Postgres.Conforms(b, columns)
  {
    assert forall i | 0 <= i < |a| :: a[i] == (a + b)[i];
    assert forall i | 0 <= i < |b| :: b[i] == (a + b)[|a| + i];
  }

  /** Where the blocks in effect fit and the keyed table is theirs, only a reorg can insert a row that is there. */
  lemma CatchUpInserts(s: Sync, p: Poll, base: Table, floor: nat)
    requires Inv(s, floor) && PollStep(s, p).error.None? && SameTable(s, base)
    requires Valid(base, BlocksLog(PollStep(s, p).state.ledger))
    ensures PlanOf(s, p).None? ==> PollInserts(s, p, base)
  {
    if PlanOf(s, p).None? {
      var target, newHeight := PollCases(s, p);
      var blocks := Offered(s.runtime.state, s.height + 1, target, p);
      CatchUpOffers(s, target, p);
      ProcessedAllParts(s, blocks);
      BlocksLogConcat(s.ledger, blocks);
      ApplyConcat(base, BlocksLog(s.ledger), BlocksLog(blocks));
      Postgres.ValidInserts(TableOf(base, s.ledger), BlocksLog(blocks));
    }
  }

  /** No reorg of the run undoes a delete of a row that is there, or replays a create of one. */
  ghost predicate ReorgsAlwaysInsert(s: Sync, polls: seq<Poll>, base: Table) {
    polls != [] ==>
      var before, p := RunSteps(s, polls[..|polls| - 1]).state, polls[|polls| - 1];
      && ReorgsAlwaysInsert(s, polls[..|polls| - 1], base)
      && (PlanOf(before, p).Some? ==> ReorgInserts(before, PlanOf(before, p).value, ReorgTarget(before, p), p, base))
  }

  lemma {:induction false} OnlyReorgsCollide(start: nat, capacity: nat, polls: seq<Poll>, base: Table)
    requires capacity > 0 && RunSteps(Start(start, capacity), polls).error.None?
    requires LedgersValid(Start(start, capacity), polls, base) && AlwaysSameTable(Start(start, capacity), polls, base)
    ensures AlwaysInserts(Start(start, capacity), polls, base)
            <==> ReorgsAlwaysInsert(Start(start, capacity), polls, base)
    decreases |polls|
  {
    if polls != [] {
      var init, p := polls[..|polls| - 1], polls[|polls| - 1];
      OnlyReorgsCollide(start, capacity, init, base);
      RunInvariant(start, capacity, init);
      CatchUpInserts(RunSteps(Start(start, capacity), init).state, p, base, start);
    }
  }

  // ---------------------------------------------------------------- through the batching sink

  function Sends(batches: seq<seq<Message>>): seq<Postgres.SinkCall> {
    seq(|batches|, i requires 0 <= i < |batches| => Postgres.Send(batches[i]))
  }

  lemma {:induction false} SendsGive(batches: seq<seq<Message>>)
    ensures Postgres.Given(Sends(batches)) == Flatten(batches)
    decreases |batches|
  {
    if batches != [] {
      var init := batches[..|batches| - 1];
      SendsGive(init);
      assert Sends(batches)[..|batches| - 1] == Sends(init);
    }
  }

  /** End to end, exactly: over any error-free run, sending its batches to a Postgres sink of any batch size and
      flushing succeeds if and only if no poll inserts a row that is there; the rows are then those of the blocks
      in effect if and only if the sink's keyed table is. */
  lemma FlushedExactly(
      start: nat, capacity: nat, polls: seq<Poll>, base: Table,
      batchSize: nat, database: Postgres.Database, columns: Columns)
    requires capacity > 0 && batchSize > 0 && RunSteps(Start(start, capacity), polls).error.None?
    requires Postgres.Mirrors(database, base) && Postgres.RowsConform(database, columns)
    requires forall p | p in polls :: EmitsColumns(p, columns)
    ensures var s := RunSteps(Start(start, capacity), polls).state;
            var r := Postgres.PerformAll(Postgres.Sink(batchSize, [], database), Sends(s.sent), i => true);
            var flushed := Postgres.Perform(r.sink, Postgres.Flush, true);
            && (r.ok && flushed.ok <==> AlwaysInserts(Start(start, capacity), polls, base))
            && (r.ok && flushed.ok ==>
                  (Postgres.Mirrors(flushed.sink.database, TableOf(base, s.ledger)) <==> SameTable(s, base)))
  {
    var s := RunSteps(Start(start, capacity), polls).state;
    var r := Postgres.PerformAll(Postgres.Sink(batchSize, [], database), Sends(s.sent), i => true);
    RunExecutesExactly(start, capacity, polls, base, database, columns);
    SendsGive(s.sent);
    Postgres.SucceedsExactly(batchSize, database, Sends(s.sent));
    if r.ok && Postgres.Perform(r.sink, Postgres.Flush, true).ok {
      Postgres.BatchingInvisible(batchSize, database, Sends(s.sent), i => true);
      MirrorsOne(Postgres.Exec(database, SinkLog(s)).value, Apply(base, SinkLog(s)), TableOf(base, s.ledger));
    }
  }

  lemma MirrorsOne(d: Postgres.Database, t: Table, u: Table)
    requires Postgres.Mirrors(d, t)
    ensures Postgres.Mirrors(d, u) <==> t == u
  {
    if Postgres.Mirrors(d, u) {
      assert t.Keys == u.Keys && forall k | k in t :: t[k] == u[k];
    }
  }

  /** The rows are those of all messages but the last ones, fewer than a batch, which the buffer holds. */
  ghost predicate Lags(sink: Postgres.Sink, batchSize: nat, base: Table, log: seq<Payload>) {
    var kept := |log| - |sink.buffer|;
    && |sink.buffer| < batchSize && 0 <= kept
    && Payloads(sink.buffer) == log[kept..] && Postgres.Mirrors(sink.database, Apply(base, log[..kept]))
  }

  /** Nothing in the program flushes. Over any error-free run whose sends the sink took, whatever the database
      answered them, the rows are those of everything sent but the last messages, fewer than a batch, which are
      still in the buffer. */
  lemma UnflushedLags(
      start: nat, capacity: nat, polls: seq<Poll>, base: Table,
      batchSize: nat, database: Postgres.Database, columns: Columns, reachable: nat -> bool)
    requires capacity > 0 && batchSize > 0 && RunSteps(Start(start, capacity), polls).error.None?
    requires Postgres.Mirrors(database, base) && Postgres.RowsConform(database, columns)
    requires forall p | p in polls :: EmitsColumns(p, columns)
    requires var s := RunSteps(Start(start, capacity), polls).state;
             Postgres.PerformAll(Postgres.Sink(batchSize, [], database), Sends(s.sent), reachable).ok
    ensures var s := RunSteps(Start(start, capacity), polls).state;
            Lags(Postgres.PerformAll(Postgres.Sink(batchSize, [], database), Sends(s.sent), reachable).sink,
                 batchSize, base, SinkLog(s))
  {
    var s := RunSteps(Start(start, capacity), polls).state;
    RunConforms(start, capacity, polls, columns);
    BatchesLag(s.sent, base, batchSize, database, columns, reachable);
  }

  lemma BatchesLag(
      batches: seq<seq<Message>>, base: Table,
      batchSize: nat, database: Postgres.Database, columns: Columns, reachable: nat -> bool)
    requires batchSize > 0 && Postgres.Conforms(Payloads(Flatten(batches)), columns)
    requires Postgres.Mirrors(database, base) && Postgres.RowsConform(database, columns)
    requires Postgres.PerformAll(Postgres.Sink(batchSize, [], database), Sends(batches), reachable).ok
    ensures Lags(Postgres.PerformAll(Postgres.Sink(batchSize, [], database), Sends(batches), reachable).sink,
                 batchSize, base, Payloads(Flatten(batches)))
  {
    SendsGive(batches);
    Postgres.BatchingInvisible(batchSize, database, Sends(batches), reachable);
    var sink := Postgres.PerformAll(Postgres.Sink(batchSize, [], database), Sends(batches), reachable).sink;
    TailLags(sink, database, base, Flatten(batches), columns);
  }

  lemma TailLags(
      sink: Postgres.Sink, database: Postgres.Database, base: Table, given: seq<Message>, columns: Columns)
    requires Postgres.Applied(sink, database, given) && Postgres.Conforms(Payloads(given), columns)
    requires Postgres.Mirrors(database, base) && Postgres.RowsConform(database, columns)
    ensures Lags(sink, |sink.buffer| + 1, base, Payloads(given))
  {
    var kept := |given| - |sink.buffer|;
    assert Payloads(given[..kept]) == Payloads(given)[..kept];
    assert Payloads(given) == Payloads(given)[..kept] + Payloads(given)[kept..];
    ConformsParts(Payloads(given)[..kept], Payloads(given)[kept..], columns);
    Postgres.ExecSucceedsExactly(database, base, Payloads(given)[..kept], columns);
  }

  /** End to end: if each reorg of a run finds every height above its ancestor that logged messages still
      cached, then a Postgres sink of any batch size takes the run's batches, and its rows lag behind everything
      sent by fewer messages than a batch. A flush would leave exactly the rows of the blocks in effect, however
      many blocks were undone on the way. */
  lemma CoveredRunsReachDatabase(
      start: nat, capacity: nat, polls: seq<Poll>, base: Table,
      batchSize: nat, database: Postgres.Database, columns: Columns)
    requires capacity > 0 && batchSize > 0 && RunSteps(Start(start, capacity), polls).error.None?
    requires LedgersValid(Start(start, capacity), polls, base) && AlwaysCovered(Start(start, capacity), polls)
    requires Postgres.Mirrors(database, base) && Postgres.RowsConform(database, columns)
    requires forall p | p in polls :: EmitsColumns(p, columns)
    ensures var s := RunSteps(Start(start, capacity), polls).state;
            var r := Postgres.PerformAll(Postgres.Sink(batchSize, [], database), Sends(s.sent), i => true);
            && r.ok && Lags(r.sink, batchSize, base, SinkLog(s))
            && Postgres.Perform(r.sink, Postgres.Flush, true).ok
            && Postgres.Mirrors(
                 Postgres.Perform(r.sink, Postgres.Flush, true).sink.database, Apply(base, BlocksLog(s.ledger)))
  {
    var s := RunSteps(Start(start, capacity), polls).state;
    WholeRunConsistent(start, capacity, polls, base);
    RunConforms(start, capacity, polls, columns);
    SendsGive(s.sent);
    Postgres.ExecMirrors(database, base, SinkLog(s), columns);
    Postgres.SucceedsExactly(batchSize, database, Sends(s.sent));
    Postgres.BatchingInvisible(batchSize, database, Sends(s.sent), i => true);
    BatchesLag(s.sent, base, batchSize, database, columns, i => true);
  }

  /** From the client's chain to the database: if moreover no poll of the run caught up on blocks its client no
      longer had, and the last poll caught up or handled a reorg, these are the rows of blocks of its client's
      chain. */
  lemma DatabaseFollowsClient(
      start: nat, capacity: nat, polls: seq<Poll>, last: Poll, at: (Hash, nat) -> Hash, base: Table,
      batchSize: nat, database: Postgres.Database, columns: Columns)
    requires capacity > 0 && batchSize > 0 && RunSteps(Start(start, capacity), polls + [last]).error.None?
    requires LedgersValid(Start(start, capacity), polls + [last], base)
    requires AlwaysCovered(Start(start, capacity), polls + [last])
    requires AlwaysFaithful(Start(start, capacity), polls + [last], at)
    requires AlwaysOnTip(Start(start, capacity), polls + [last])
    requires Postgres.Mirrors(database, base) && Postgres.RowsConform(database, columns)
    requires forall p | p in polls + [last] :: EmitsColumns(p, columns)
    requires var before := RunSteps(Start(start, capacity), polls).state;
             before.height < PollStep(before, last).state.height || PlanOf(before, last).Some?
    ensures var s := RunSteps(Start(start, capacity), polls + [last]).state;
            var r := Postgres.PerformAll(Postgres.Sink(batchSize, [], database), Sends(s.sent), i => true);
            && OnChain(s.ledger, last)
            && r.ok && Postgres.Perform(r.sink, Postgres.Flush, true).ok
            && Postgres.Mirrors(
                 Postgres.Perform(r.sink, Postgres.Flush, true).sink.database, Apply(base, BlocksLog(s.ledger)))
  {
    var all := polls + [last];
    assert all[..|all| - 1] == polls;
    RunFollowsExactly(start, capacity, all, at);
    CoveredRunsReachDatabase(start, capacity, all, base, batchSize, database, columns);
  }
}
