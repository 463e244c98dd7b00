/** Runs with any number of reorgs: which always restore the table, and which never succeed. */
module Scenarios {
  import opened Wrappers
  import opened Errors
  import opened Cdc
  import opened BlockCaching
  import opened Synchronizing
  import opened Invariants
  import opened Consistency
  import opened Reorgs

  // ---------------------------------------------------------------- reorgs that keep clear of each other

  /** `current_height` at the last reorg of the run so far, the top of the heights it left without a block. */
  function LastReorgAt(s: Sync, polls: seq<Poll>): nat {
    if polls == [] then 0
    else
      var before := RunSteps(s, polls[..|polls| - 1]).state;
      if PlanOf(before, polls[|polls| - 1]).Some? then before.height else LastReorgAt(s, polls[..|polls| - 1])
  }

  /** No reorg goes back beyond `current_height` at the one before it. */
  ghost predicate Spaced(s: Sync, polls: seq<Poll>) {
    polls != [] ==>
      var init, p := polls[..|polls| - 1], polls[|polls| - 1];
      var before := RunSteps(s, init).state;
      && Spaced(s, init)
      && (PlanOf(before, p).Some? ==> LastReorgAt(s, init) <= PlanOf(before, p).value.ancestor)
  }

  /** Above the mark, every logged height holds a block in effect. */
  ghost predicate LoggedInEffect(s: Sync, mark: nat) {
    forall h | h in s.runtime.log :: h <= s.height && (mark < h ==> h in Heights(s.ledger))
  }

  lemma PollLoggedInEffect(s: Sync, p: Poll, floor: nat, mark: nat)
    requires Inv(s, floor) && LoggedInEffect(s, mark) && PollStep(s, p).error.None?
    ensures LoggedInEffect(PollStep(s, p).state, if PlanOf(s, p).Some? then s.height else mark)
  {
    var after := PollStep(s, p).state;
    PollKeeps(s, p, floor);
    PollLogFrom(s, p, floor);
    var target, newHeight := PollCases(s, p);
    if PlanOf(s, p).Some? {
      ReorgFailsCleanly(s, newHeight, p);
    } else {
      CatchUpOffers(s, target, p);
      ProcessedAllParts(s, Offered(s.runtime.state, s.height + 1, target, p));
      assert forall b | b in s.ledger :: b in after.ledger;
    }
    forall h | h in after.runtime.log
      ensures h <= after.height && (PlanOf(s, p).None? && mark < h ==> h in Heights(after.ledger))
    {
      if b :| b in after.ledger && b.height == h {
        assert b.height in Heights(after.ledger);
      } else {
        assert h in s.runtime.log;
      }
    }
  }

  lemma LoggedAboveIsCovered(s: Sync, ancestor: nat, floor: nat, mark: nat)
    requires Inv(s, floor) && LoggedInEffect(s, mark) && mark <= ancestor && IndexOf(s.cache, ancestor).Some?
    ensures Covered(s, ancestor)
  {
    var kept, above := LedgerSplits(s, ancestor, floor);
    AboveIsCached(s, ancestor, floor, kept, above);
    forall h | ancestor < h <= s.height && h in s.runtime.log && s.runtime.log[h] != []
      ensures h in Heights(s.cache)
    {
      assert h in Heights(s.ledger);
      var b :| b in s.ledger && b.height == h;
      assert b in above;
      assert b.height in Heights(above);
    }
  }

  lemma {:induction false} SpacedInEffect(start: nat, capacity: nat, polls: seq<Poll>)
    requires capacity > 0 && RunSteps(Start(start, capacity), polls).error.None?
    ensures LoggedInEffect(RunSteps(Start(start, capacity), polls).state, LastReorgAt(Start(start, capacity), polls))
    decreases |polls|
  {
    if polls != [] {
      var init := polls[..|polls| - 1];
      SpacedInEffect(start, capacity, init);
      RunInvariant(start, capacity, init);
      PollLoggedInEffect(
        RunSteps(Start(start, capacity), init).state, polls[|polls| - 1], start,
        LastReorgAt(Start(start, capacity), init));
    }
  }

  lemma {:induction false} SpacedCovered(start: nat, capacity: nat, polls: seq<Poll>)
    requires capacity > 0 && RunSteps(Start(start, capacity), polls).error.None?
    requires Spaced(Start(start, capacity), polls)
    ensures AlwaysCovered(Start(start, capacity), polls)
    decreases |polls|
  {
    if polls != [] {
      var init, p := polls[..|polls| - 1], polls[|polls| - 1];
      SpacedCovered(start, capacity, init);
      SpacedInEffect(start, capacity, init);
      RunInvariant(start, capacity, init);
      var s := RunSteps(Start(start, capacity), init).state;
      if PlanOf(s, p).Some? {
        var target, newHeight := PollCases(s, p);
        PlanFacts(s, newHeight, p, start);
        LoggedAboveIsCovered(s, PlanOf(s, p).value.ancestor, start, LastReorgAt(Start(start, capacity), init));
      }
    }
  }

  /** Any number of reorgs: if none goes back beyond `current_height` at the one before it, the sink's table is
      the one of the blocks in effect throughout, whichever blocks were not available on the way. */
  lemma SpacedReorgsRestore(start: nat, capacity: nat, polls: seq<Poll>, base: Table)
    requires capacity > 0 && RunSteps(Start(start, capacity), polls).error.None?
    requires LedgersValid(Start(start, capacity), polls, base) && Spaced(Start(start, capacity), polls)
    ensures AlwaysConsistent(Start(start, capacity), polls, base)
  {
    SpacedCovered(start, capacity, polls);
    WholeRunConsistent(start, capacity, polls, base);
  }

  ghost predicate ReorgFree(s: Sync, polls: seq<Poll>) {
    polls != [] ==>
      && ReorgFree(s, polls[..|polls| - 1])
      && PlanOf(RunSteps(s, polls[..|polls| - 1]).state, polls[|polls| - 1]).None?
  }

  lemma {:induction false} ReorgFreeSpaced(s: Sync, polls: seq<Poll>)
    requires ReorgFree(s, polls)
    ensures Spaced(s, polls) && LastReorgAt(s, polls) == 0
    decreases |polls|
  {
    if polls != [] {
      ReorgFreeSpaced(s, polls[..|polls| - 1]);
    }
  }

  /** However long the run before it, whatever the blocks hold and whichever were not available, the first
      reorg of a run leaves the sink's table consistent with the blocks in effect. */
  lemma FirstReorgRestores(start: nat, capacity: nat, polls: seq<Poll>, last: Poll, base: Table)
    requires capacity > 0 && RunSteps(Start(start, capacity), polls + [last]).error.None?
    requires LedgersValid(Start(start, capacity), polls + [last], base)
    requires ReorgFree(Start(start, capacity), polls)
    ensures AlwaysConsistent(Start(start, capacity), polls + [last], base)
  {
    var all := polls + [last];
    assert all[..|all| - 1] == polls;
    ReorgFreeSpaced(Start(start, capacity), polls);
    SpacedReorgsRestore(start, capacity, all, base);
  }

  // ---------------------------------------------------------------- heights that were not available

  /** A reorg whose ancestor lies below a height that was never logged fails, and changes nothing. */
  lemma ReorgAcrossSkippedFails(s: Sync, newHeight: nat, p: Poll, ancestor: nat, h: nat)
    requires AllFetched(newHeight, p) && IsAncestor(s, newHeight, p, ancestor)
    requires ancestor < h <= s.height && h !in s.runtime.log
    ensures ReorgStep(s, newHeight, p).state == s
    ensures exists g :: h <= g <= s.height && ReorgStep(s, newHeight, p).error == Some(NoMessagesFor(g))
  {
    PlanOutcome(s, newHeight, p);
    ReorgFailsCleanly(s, newHeight, p);
    if PlanReorg(s, newHeight, p).Success? {
      var a := PlanReorg(s, newHeight, p).value.ancestor;
      assert IsAncestor(s, newHeight, p, a);
      SameAncestor(s, newHeight, p, ancestor, a);
      assert false;
    }
    var g := PlanReorg(s, newHeight, p).error.height;
    var a: nat :| IsAncestor(s, newHeight, p, a) && IsUnlogged(s, a, g);
    SameAncestor(s, newHeight, p, ancestor, a);
  }

  lemma SameAncestor(s: Sync, newHeight: nat, p: Poll, a: nat, b: nat)
    requires IsAncestor(s, newHeight, p, a) && IsAncestor(s, newHeight, p, b)
    ensures a == b
  {
  }

  /** An error-free poll never logs a height skipped before, nor handles a reorg across it. */
  lemma SkippedPoll(s: Sync, p: Poll, floor: nat, h: nat)
    requires Inv(s, floor) && h <= s.height && h !in s.runtime.log && PollStep(s, p).error.None?
    ensures h !in PollStep(s, p).state.runtime.log && h <= PollStep(s, p).state.height
    ensures PlanOf(s, p).Some? ==> h <= PlanOf(s, p).value.ancestor
  {
    if PlanOf(s, p).Some? {
      PlanStaysAbove(s, p, h);
    }
    PollKeeps(s, p, floor);
    if h in PollStep(s, p).state.runtime.log {
      SkippedUnlogged(s, p, floor, h);
    }
  }

  lemma PlanStaysAbove(s: Sync, p: Poll, h: nat)
    requires h <= s.height && h !in s.runtime.log && PollStep(s, p).error.None? && PlanOf(s, p).Some?
    ensures h <= PlanOf(s, p).value.ancestor
  {
    var target, newHeight := PollCases(s, p);
    PlanOutcome(s, newHeight, p);
    assert IsAncestor(s, newHeight, p, PlanOf(s, p).value.ancestor);
  }

  lemma SkippedUnlogged(s: Sync, p: Poll, floor: nat, h: nat)
    requires Inv(s, floor) && h <= s.height && h !in s.runtime.log && PollStep(s, p).error.None?
    requires PlanOf(s, p).Some? ==> h <= PlanOf(s, p).value.ancestor
    ensures h !in PollStep(s, p).state.runtime.log
  {
    PollLogFrom(s, p, floor);
    UnloggedHoldsNoBlock(s, floor, h);
    if h in PollStep(s, p).state.runtime.log {
      var b :| b in PollStep(s, p).state.ledger && b.height == h;
      assert h in Heights(PollStep(s, p).state.ledger);
      GapPersists(s, p, floor, h);
    }
  }

  lemma UnloggedHoldsNoBlock(s: Sync, floor: nat, h: nat)
    requires Inv(s, floor) && h !in s.runtime.log
    ensures h !in Heights(s.ledger)
  {
    forall x | x in s.ledger
      ensures x.height != h
    {
      assert Recorded(s.runtime, x);
    }
  }

  /** Every reorg of the run stays above this height. */
  ghost predicate ReorgsStayAbove(s: Sync, polls: seq<Poll>, h: nat) {
    polls != [] ==>
      var before, p := RunSteps(s, polls[..|polls| - 1]).state, polls[|polls| - 1];
      && ReorgsStayAbove(s, polls[..|polls| - 1], h)
      && (PlanOf(before, p).Some? ==> h <= PlanOf(before, p).value.ancestor)
  }

  /** A height passed while its block was not available is a barrier: however long the run goes on without an
      error, it is never logged and no reorg ever goes back across it. */
  lemma {:induction false} SkippedIsBarrier(s: Sync, polls: seq<Poll>, floor: nat, h: nat)
    requires Inv(s, floor) && h <= s.height && h !in s.runtime.log && RunSteps(s, polls).error.None?
    ensures Inv(RunSteps(s, polls).state, floor)
    ensures h <= RunSteps(s, polls).state.height && h !in RunSteps(s, polls).state.runtime.log
    ensures ReorgsStayAbove(s, polls, h)
    decreases |polls|
  {
    if polls != [] {
      var init, p := polls[..|polls| - 1], polls[|polls| - 1];
      SkippedIsBarrier(s, init, floor, h);
      SkippedPoll(RunSteps(s, init).state, p, floor, h);
      PollKeeps(RunSteps(s, init).state, p, floor);
    }
  }
}
