/** The sink's table by itself: when it is the one of the blocks in effect, whether or not each message fits. */
module TableConsistency {
  import opened Wrappers
  import opened Cdc
  import opened BlockCaching
  import opened Runtimes
  import opened Synchronizing
  import opened Invariants
  import opened Consistency

  function TableOf(base: Table, blocks: seq<CachedBlock>): Table {
    Apply(base, BlocksLog(blocks))
  }

  /** From the base table, everything sent yields what the blocks in effect yield. */
  ghost predicate SameTable(s: Sync, base: Table) {
    Apply(base, SinkLog(s)) == TableOf(base, s.ledger)
  }

  function KeptBy(s: Sync, ancestor: nat): seq<CachedBlock> {
    OrElse(RolledBack(s.ledger, ancestor), s.ledger)
  }

  /** The value at a key once the logged messages above the ancestor are undone. */
  function UndoneAt(s: Sync, ancestor: nat, base: Table, k: Key): Option<Json> {
    RewoundAt(Lookup(TableOf(base, s.ledger), k), Logged(s.runtime.log, ancestor, s.height), k)
  }

  function KeptAt(s: Sync, ancestor: nat, base: Table, k: Key): Option<Json> {
    Lookup(TableOf(base, KeptBy(s, ancestor)), k)
  }

  /** The table of the blocks in effect with the inverse of everything logged above the ancestor applied. */
  function UndoneTable(s: Sync, ancestor: nat, base: Table): Table {
    Apply(TableOf(base, s.ledger), Inverse(Logged(s.runtime.log, ancestor, s.height)))
  }

  // ---------------------------------------------------------------- one undo

  /** Sending the inverse stream leaves the ancestor's table exactly when at each key the logged messages
      rewind the current value to the ancestor's. */
  lemma UndoneTableExactly(s: Sync, newHeight: nat, p: Poll, base: Table, floor: nat)
    requires InStep(s, floor, s.height) && SameTable(s, base) && PlanReorg(s, newHeight, p).Success?
    ensures var plan := PlanReorg(s, newHeight, p).value;
            SameTable(Undone(s, plan), base)
            <==> forall k :: UndoneAt(s, plan.ancestor, base, k) == KeptAt(s, plan.ancestor, base, k)
  {
    UndoneSinkTable(s, newHeight, p, base, floor);
    UndoneAtIs(s, PlanReorg(s, newHeight, p).value.ancestor, base);
  }

  /** The undone table and the kept one are the same exactly when they are at each key. */
  lemma UndoneAtIs(s: Sync, ancestor: nat, base: Table)
    ensures forall k :: Lookup(UndoneTable(s, ancestor, base), k) == UndoneAt(s, ancestor, base, k)
    ensures UndoneTable(s, ancestor, base) == TableOf(base, KeptBy(s, ancestor))
            <==> forall k :: UndoneAt(s, ancestor, base, k) == KeptAt(s, ancestor, base, k)
  {
    var now, logged := TableOf(base, s.ledger), Logged(s.runtime.log, ancestor, s.height);
    forall k
      ensures Lookup(UndoneTable(s, ancestor, base), k) == UndoneAt(s, ancestor, base, k)
    {
      RewoundAtIs(now, logged, k);
    }
    SameAtEveryKey(UndoneTable(s, ancestor, base), TableOf(base, KeptBy(s, ancestor)));
  }

  lemma UndoneSinkTable(s: Sync, newHeight: nat, p: Poll, base: Table, floor: nat)
    requires InStep(s, floor, s.height) && SameTable(s, base) && PlanReorg(s, newHeight, p).Success?
    ensures var plan := PlanReorg(s, newHeight, p).value;
            && Apply(base, SinkLog(Undone(s, plan))) == UndoneTable(s, plan.ancestor, base)
            && Undone(s, plan).ledger == KeptBy(s, plan.ancestor)
  {
    var plan := PlanReorg(s, newHeight, p).value;
    PlanFacts(s, newHeight, p, floor);
    UndoneLog(s, plan);
    UndoStreamInverts(s.runtime.log, s.height, plan.ancestor);
    ApplyConcat(base, SinkLog(s), Payloads(plan.inverse));
  }

  // ---------------------------------------------------------------- undo and replay

  lemma ProcessedTables(s: Sync, blocks: seq<CachedBlock>, base: Table)
    ensures Apply(base, SinkLog(ProcessedAll(s, blocks))) == Apply(Apply(base, SinkLog(s)), BlocksLog(blocks))
    ensures TableOf(base, ProcessedAll(s, blocks).ledger) == Apply(TableOf(base, s.ledger), BlocksLog(blocks))
  {
    ProcessedAllLog(s, blocks);
    ProcessedAllParts(s, blocks);
    BlocksLogConcat(s.ledger, blocks);
    ApplyConcat(base, SinkLog(s), BlocksLog(blocks));
    ApplyConcat(base, BlocksLog(s.ledger), BlocksLog(blocks));
  }

  /** At this key the undo gives the ancestor's value back, or the replayed blocks make up for it. */
  ghost predicate Recovers(s: Sync, ancestor: nat, replayed: seq<Payload>, base: Table, k: Key) {
    var undone, kept := UndoneAt(s, ancestor, base, k), KeptAt(s, ancestor, base, k);
    undone == kept || Settles(replayed, k) || (undone.Some? && kept.Some? && Changes(replayed, k))
  }

  ghost predicate AllRecover(s: Sync, ancestor: nat, replayed: seq<Payload>, base: Table) {
    forall k :: Recovers(s, ancestor, replayed, base, k)
  }

  /** Two tables that a list takes to the same table, seen key by key. */
  lemma ReplayMeetsExactly(t: Table, u: Table, ps: seq<Payload>)
    ensures Apply(t, ps) == Apply(u, ps)
            <==> forall k :: Lookup(t, k) == Lookup(u, k) || Settles(ps, k)
                             || (Lookup(t, k).Some? && Lookup(u, k).Some? && Changes(ps, k))
  {
    SameAtEveryKey(Apply(t, ps), Apply(u, ps));
    forall k
      ensures Lookup(Apply(t, ps), k) == Lookup(Apply(u, ps), k)
              <==> Lookup(t, k) == Lookup(u, k) || Settles(ps, k)
                   || (Lookup(t, k).Some? && Lookup(u, k).Some? && Changes(ps, k))
    {
      ReplayAtIs(t, ps, k);
      ReplayAtIs(u, ps, k);
      ReplayAgreesExactly(Lookup(t, k), Lookup(u, k), ps, k);
    }
  }

  lemma ReorgTableExactly(s: Sync, newHeight: nat, p: Poll, base: Table, floor: nat)
    requires InStep(s, floor, s.height) && SameTable(s, base) && ReorgStep(s, newHeight, p).error.None?
    ensures PlanReorg(s, newHeight, p).Success?
    ensures var plan := PlanReorg(s, newHeight, p).value;
            SameTable(ReorgStep(s, newHeight, p).state, base)
            <==> AllRecover(s, plan.ancestor, Replayed(plan, newHeight, p), base)
  {
    var plan, blocks := ReorgOffers(s, newHeight, p);
    UndoneSinkTable(s, newHeight, p, base, floor);
    UndoneThenReplayed(s, Undone(s, plan), plan.ancestor, blocks, base);
    assert BlocksLog(blocks) == Replayed(plan, newHeight, p);
  }

  lemma UndoneThenReplayed(s: Sync, undone: Sync, ancestor: nat, blocks: seq<CachedBlock>, base: Table)
    requires Apply(base, SinkLog(undone)) == UndoneTable(s, ancestor, base)
    requires undone.ledger == KeptBy(s, ancestor)
    ensures SameTable(ProcessedAll(undone, blocks), base)
            <==> AllRecover(s, ancestor, BlocksLog(blocks), base)
  {
    ProcessedTables(undone, blocks, base);
    RecoversExactly(s, ancestor, BlocksLog(blocks), base);
  }

  lemma RecoversExactly(s: Sync, ancestor: nat, replayed: seq<Payload>, base: Table)
    ensures Apply(UndoneTable(s, ancestor, base), replayed) == Apply(TableOf(base, KeptBy(s, ancestor)), replayed)
            <==> AllRecover(s, ancestor, replayed, base)
  {
    var undone, kept := UndoneTable(s, ancestor, base), TableOf(base, KeptBy(s, ancestor));
    UndoneAtIs(s, ancestor, base);
    ReplayMeetsExactly(undone, kept, replayed);
    forall k
      ensures Recovers(s, ancestor, replayed, base, k)
              <==> Lookup(undone, k) == Lookup(kept, k) || Settles(replayed, k)
                   || (Lookup(undone, k).Some? && Lookup(kept, k).Some? && Changes(replayed, k))
    {
    }
  }

  /** The messages of the blocks a reorg replays. */
  function Replayed(plan: Plan, newHeight: nat, p: Poll): seq<Payload> {
    BlocksLog(Offered(plan.snapshot, plan.ancestor + 1, newHeight, p))
  }

  // ---------------------------------------------------------------- whole runs

  /** If this poll handles a reorg, every key recovers. */
  ghost predicate PollRecovers(s: Sync, p: Poll, base: Table) {
    PlanOf(s, p).Some? ==>
      var plan := PlanOf(s, p).value;
      AllRecover(s, plan.ancestor, Replayed(plan, ReorgTarget(s, p), p), base)
  }

  lemma PollTableExactly(s: Sync, p: Poll, base: Table, floor: nat)
    requires Inv(s, floor) && SameTable(s, base) && PollStep(s, p).error.None?
    ensures SameTable(PollStep(s, p).state, base) <==> PollRecovers(s, p, base)
  {
    var target, newHeight := PollCases(s, p);
    if PlanOf(s, p).Some? {
      ReorgTableExactly(s, newHeight, p, base, floor);
      assert ReorgTarget(s, p) == newHeight;
    } else {
      CatchUpOffers(s, target, p);
      ProcessedTables(s, Offered(s.runtime.state, s.height + 1, target, p), base);
    }
  }

  /** After this run and after every shorter one, the sink's table is that of the blocks in effect. */
  ghost predicate AlwaysSameTable(s: Sync, polls: seq<Poll>, base: Table) {
    && SameTable(RunSteps(s, polls).state, base)
    && (polls == [] || AlwaysSameTable(s, polls[..|polls| - 1], base))
  }

  ghost predicate AlwaysRecovers(s: Sync, polls: seq<Poll>, base: Table) {
    polls != [] ==>
      && AlwaysRecovers(s, polls[..|polls| - 1], base)
      && PollRecovers(RunSteps(s, polls[..|polls| - 1]).state, polls[|polls| - 1], base)
  }

  /** Whole-run consistency of the keyed table, exactly: over any error-free run of any length, whatever the
      transform emits, the sink's table is that of the blocks in effect at every poll boundary if and only if
      at each reorg every key recovers. */
  lemma {:induction false} WholeRunTableExactly(start: nat, capacity: nat, polls: seq<Poll>, base: Table)
    requires capacity > 0 && RunSteps(Start(start, capacity), polls).error.None?
    ensures AlwaysSameTable(Start(start, capacity), polls, base)
            <==> AlwaysRecovers(Start(start, capacity), polls, base)
    decreases |polls|
  {
    if polls != [] {
      var init := polls[..|polls| - 1];
      WholeRunTableExactly(start, capacity, init, base);
      RunInvariant(start, capacity, init);
      var before := RunSteps(Start(start, capacity), init).state;
      if SameTable(before, base) {
        PollTableExactly(before, polls[|polls| - 1], base, start);
      }
    }
  }

  /** If everything sent fits as well, the tables are the same in particular. */
  lemma {:induction false} FittingRunsHaveSameTable(s: Sync, polls: seq<Poll>, base: Table)
    requires AlwaysConsistent(s, polls, base)
    ensures AlwaysSameTable(s, polls, base)
    decreases |polls|
  {
    if polls != [] {
      FittingRunsHaveSameTable(s, polls[..|polls| - 1], base);
    }
  }

  // ---------------------------------------------------------------- only stale keys decide

  /** At a key no stale message names, the logged messages rewind as those of the blocks in effect do. */
  lemma {:induction false} RewoundWithoutStale(
      r: Runtime, blocks: seq<CachedBlock>, inEffect: set<nat>, ancestor: nat, height: nat,
      v: Option<Json>, k: Key)
    requires Represents(r, blocks, inEffect, ancestor, height)
    requires !Touches(Stale(r.log, inEffect, ancestor, height), k)
    ensures RewoundAt(v, Logged(r.log, ancestor, height), k) == RewoundAt(v, BlocksLog(blocks), k)
    decreases height
  {
    if height <= ancestor {
      if blocks != [] {
        LastIsIn(blocks);
        assert false;
      }
    } else {
      var here := if height in r.log then Payloads(r.log[height]) else [];
      var below, stale := Logged(r.log, ancestor, height - 1), Stale(r.log, inEffect, ancestor, height - 1);
      var init := RepresentsBelow(r, blocks, inEffect, ancestor, height);
      RewoundConcat(v, below, here, k);
      if height in inEffect {
        assert stale + [] == stale;
        RewoundWithoutStale(r, init, inEffect, ancestor, height - 1, RewoundAt(v, here, k), k);
        var b :| blocks == init + [b] && b.height == height && Recorded(r, b);
        LogWithLast(r, init, b);
        RewoundConcat(v, BlocksLog(init), here, k);
      } else {
        TouchesConcat(stale, here, k);
        RewoundUntouched(v, here, k);
        RewoundWithoutStale(r, init, inEffect, ancestor, height - 1, v, k);
      }
    }
  }

  /** Where the blocks in effect fit, only keys that stale messages name can be lost: the ancestor's table is
      given back exactly when those keys are. */
  lemma StaleKeysDecide(s: Sync, ancestor: nat, base: Table, floor: nat)
    requires Inv(s, floor) && IndexOf(s.cache, ancestor).Some? && Valid(base, BlocksLog(s.ledger))
    ensures (forall k :: UndoneAt(s, ancestor, base, k) == KeptAt(s, ancestor, base, k))
            <==> forall k | Touches(Stale(s.runtime.log, Heights(s.cache), ancestor, s.height), k) ::
                   UndoneAt(s, ancestor, base, k) == KeptAt(s, ancestor, base, k)
  {
    forall k | !Touches(Stale(s.runtime.log, Heights(s.cache), ancestor, s.height), k)
      ensures UndoneAt(s, ancestor, base, k) == KeptAt(s, ancestor, base, k)
    {
      FreshKeyKept(s, ancestor, base, floor, k);
    }
  }

  lemma FreshKeyKept(s: Sync, ancestor: nat, base: Table, floor: nat, k: Key)
    requires Inv(s, floor) && IndexOf(s.cache, ancestor).Some? && Valid(base, BlocksLog(s.ledger))
    requires !Touches(Stale(s.runtime.log, Heights(s.cache), ancestor, s.height), k)
    ensures UndoneAt(s, ancestor, base, k) == KeptAt(s, ancestor, base, k)
  {
    var kept, above := LedgerSplits(s, ancestor, floor);
    AboveIsCached(s, ancestor, floor, kept, above);
    var now := Lookup(TableOf(base, s.ledger), k);
    RewoundWithoutStale(s.runtime, above, Heights(s.cache), ancestor, s.height, now, k);
    BlocksLogConcat(kept, above);
    ApplyConcat(base, BlocksLog(kept), BlocksLog(above));
    Undo(TableOf(base, kept), BlocksLog(above));
    RewoundAtIs(TableOf(base, s.ledger), BlocksLog(above), k);
  }

  lemma {:induction false} RewoundCreates(v: Option<Json>, ps: seq<Payload>, k: Key)
    requires OnlyCreates(ps)
    ensures RewoundAt(v, ps, k) == if Touches(ps, k) then None else v
    decreases |ps|
  {
    if ps != [] {
      RewoundCreates(v, ps[1..], k);
    }
  }

  /** Where only creates are logged above the ancestor, its table is given back exactly when no stale message
      created a row that is there at the ancestor. */
  lemma CreateOnlyTableExactly(s: Sync, ancestor: nat, base: Table, floor: nat)
    requires Inv(s, floor) && IndexOf(s.cache, ancestor).Some? && Valid(base, BlocksLog(s.ledger))
    requires OnlyCreates(Logged(s.runtime.log, ancestor, s.height))
    ensures (forall k :: UndoneAt(s, ancestor, base, k) == KeptAt(s, ancestor, base, k))
            <==> forall k | Touches(Stale(s.runtime.log, Heights(s.cache), ancestor, s.height), k) ::
                   k !in TableOf(base, KeptBy(s, ancestor))
  {
    StaleKeysDecide(s, ancestor, base, floor);
    forall k | Touches(Stale(s.runtime.log, Heights(s.cache), ancestor, s.height), k)
      ensures UndoneAt(s, ancestor, base, k) == None
    {
      StaleIsLogged(s.runtime.log, Heights(s.cache), ancestor, s.height, k);
      RewoundCreates(
        Lookup(TableOf(base, s.ledger), k), Logged(s.runtime.log, ancestor, s.height), k);
    }
  }

  lemma {:induction false} StaleIsLogged(
      log: map<nat, seq<Message>>, inEffect: set<nat>, ancestor: nat, height: nat, k: Key)
    requires Touches(Stale(log, inEffect, ancestor, height), k)
    ensures Touches(Logged(log, ancestor, height), k)
    decreases height
  {
    if ancestor < height {
      var here := if height in log then Payloads(log[height]) else [];
      var stale := Stale(log, inEffect, ancestor, height - 1);
      TouchesConcat(stale, if height in log && height !in inEffect then here else [], k);
      TouchesConcat(Logged(log, ancestor, height - 1), here, k);
      if Touches(stale, k) {
        StaleIsLogged(log, inEffect, ancestor, height - 1, k);
      }
    }
  }

  /** With a single height above the ancestor left without its block, the ancestor's table is given back exactly
      when at each key that height names, undoing it where it stands and then the blocks below it ends at the
      ancestor's value. */
  lemma OneGapTableExactly(s: Sync, ancestor: nat, gap: nat, base: Table, floor: nat)
    returns (kept: seq<CachedBlock>, low: seq<CachedBlock>, upper: seq<CachedBlock>)
    requires Inv(s, floor) && IndexOf(s.cache, ancestor).Some? && Valid(base, BlocksLog(s.ledger))
    requires ancestor < gap <= s.height && gap in s.runtime.log && gap !in Heights(s.cache)
    requires forall h | ancestor < h <= s.height && h != gap && h in s.runtime.log && s.runtime.log[h] != [] ::
               h in Heights(s.cache)
    ensures s.ledger == (kept + low) + upper && RolledBack(s.ledger, ancestor) == Some(kept)
    ensures (forall b | b in kept + low :: b.height < gap) && (forall b | b in upper :: gap < b.height)
    ensures var here, stale := TableOf(base, kept + low), Payloads(s.runtime.log[gap]);
            (forall k :: UndoneAt(s, ancestor, base, k) == KeptAt(s, ancestor, base, k))
            <==> forall k | Touches(stale, k) ::
                   RewoundAt(RewoundAt(Lookup(here, k), stale, k), BlocksLog(low), k)
                   == Lookup(TableOf(base, kept), k)
  {
    kept, low, upper := GapParts(s, ancestor, gap, floor);
    RewindsToPrefix(base, kept + low, upper);
    RewindsToPrefix(base, kept, low);
    GapKeysDecide(s, ancestor, gap, base, kept, low, upper);
  }

  lemma GapKeysDecide(
      s: Sync, ancestor: nat, gap: nat, base: Table,
      kept: seq<CachedBlock>, low: seq<CachedBlock>, upper: seq<CachedBlock>)
    requires ancestor < gap <= s.height && gap in s.runtime.log && RolledBack(s.ledger, ancestor) == Some(kept)
    requires Logged(s.runtime.log, ancestor, gap - 1) == BlocksLog(low)
    requires Logged(s.runtime.log, gap, s.height) == BlocksLog(upper)
    requires forall k :: RewoundAt(Lookup(TableOf(base, s.ledger), k), BlocksLog(upper), k)
                         == Lookup(TableOf(base, kept + low), k)
    requires forall k :: RewoundAt(Lookup(TableOf(base, kept + low), k), BlocksLog(low), k)
                         == Lookup(TableOf(base, kept), k)
    ensures var here, stale := TableOf(base, kept + low), Payloads(s.runtime.log[gap]);
            (forall k :: UndoneAt(s, ancestor, base, k) == KeptAt(s, ancestor, base, k))
            <==> forall k | Touches(stale, k) ::
                   RewoundAt(RewoundAt(Lookup(here, k), stale, k), BlocksLog(low), k)
                   == Lookup(TableOf(base, kept), k)
  {
    var here, stale := TableOf(base, kept + low), Payloads(s.runtime.log[gap]);
    forall k
      ensures UndoneAt(s, ancestor, base, k) == RewoundAt(RewoundAt(Lookup(here, k), stale, k), BlocksLog(low), k)
      ensures KeptAt(s, ancestor, base, k) == Lookup(TableOf(base, kept), k)
      ensures Touches(stale, k) || UndoneAt(s, ancestor, base, k) == KeptAt(s, ancestor, base, k)
    {
      GapUndoneAt(s, ancestor, gap, base, low, upper, TableOf(base, kept + low), TableOf(base, kept), k);
    }
  }

  lemma GapUndoneAt(
      s: Sync, ancestor: nat, gap: nat, base: Table, low: seq<CachedBlock>, upper: seq<CachedBlock>,
      here: Table, kept: Table, k: Key)
    requires ancestor < gap <= s.height && gap in s.runtime.log
    requires Logged(s.runtime.log, ancestor, gap - 1) == BlocksLog(low)
    requires Logged(s.runtime.log, gap, s.height) == BlocksLog(upper)
    requires RewoundAt(Lookup(TableOf(base, s.ledger), k), BlocksLog(upper), k) == Lookup(here, k)
    requires RewoundAt(Lookup(here, k), BlocksLog(low), k) == Lookup(kept, k)
    ensures var stale := Payloads(s.runtime.log[gap]);
            && UndoneAt(s, ancestor, base, k) == RewoundAt(RewoundAt(Lookup(here, k), stale, k), BlocksLog(low), k)
            && (Touches(stale, k) || UndoneAt(s, ancestor, base, k) == Lookup(kept, k))
  {
    var stale := Payloads(s.runtime.log[gap]);
    LoggedSplits(s.runtime.log, ancestor, gap, s.height);
    RewoundConcat(Lookup(TableOf(base, s.ledger), k), BlocksLog(low) + stale, BlocksLog(upper), k);
    RewoundConcat(Lookup(here, k), BlocksLog(low), stale, k);
    if !Touches(stale, k) {
      RewoundUntouched(Lookup(here, k), stale, k);
    }
  }

  lemma RewindsToPrefix(base: Table, below: seq<CachedBlock>, above: seq<CachedBlock>)
    requires Valid(base, BlocksLog(below + above))
    ensures Valid(base, BlocksLog(below))
    ensures forall k ::
              RewoundAt(Lookup(TableOf(base, below + above), k), BlocksLog(above), k)
              == Lookup(TableOf(base, below), k)
  {
    BlocksLogConcat(below, above);
    ApplyConcat(base, BlocksLog(below), BlocksLog(above));
    Undo(TableOf(base, below), BlocksLog(above));
    forall k
      ensures RewoundAt(Lookup(TableOf(base, below + above), k), BlocksLog(above), k)
              == Lookup(TableOf(base, below), k)
    {
      RewoundAtIs(TableOf(base, below + above), BlocksLog(above), k);
    }
  }
}
