/** The block synchronizer: one poll of its loop as a step on values, and the object that performs it. */
module Synchronizing {
  import opened Wrappers
  import opened Errors
  import opened Cdc
  import opened BlockCaching
  import opened Runtimes

  datatype HashReply = Found(hash: Hash) | NotAvailable | Unreachable

  /** A send is accepted, or fails when the sink has taken this many of the messages. */
  datatype SendReply = Accepted | Refused(taken: nat)

  function Delivered(sent: seq<seq<Message>>, messages: seq<Message>, reply: SendReply): seq<seq<Message>> {
    match reply
    case Accepted => sent + [messages]
    case Refused(n) => sent + [if n <= |messages| then messages[..n] else messages]
  }

  /** Everything the outside world answers during one poll. Within a poll each of the three kinds of
      hash request is made at most once a height, so separate answers let the chain change between
      any two calls. */
  datatype Poll = Poll(
    metashrewHeight: Option<nat>,
    blockCount: Option<nat>,
    probe: nat -> HashReply,
    fetch: nat -> HashReply,
    serve: nat -> HashReply,
    transform: nat -> TransformReply,
    inverseSent: SendReply,
    blockSent: nat -> SendReply)

  /** `ledger` records the blocks in effect at the sink without any bound; no branch reads it. */
  datatype Sync = Sync(
    height: nat,
    capacity: nat,
    cache: seq<CachedBlock>,
    runtime: Runtime,
    sent: seq<seq<Message>>,
    ledger: seq<CachedBlock>)

  datatype Step = Step(state: Sync, error: Option<Error>)

  // ---------------------------------------------------------------- processing blocks

  function BlockStep(s: Sync, height: nat, p: Poll): Step {
    match p.serve(height)
    case NotAvailable => Step(s, None)
    case Unreachable => Step(s, Some(ClientFailed))
    case Found(hash) =>
      match p.transform(height)
      case TransformError => Step(s.(runtime := s.runtime.(height := height, hash := hash)), Some(TransformFailed))
      case Messages(messages) =>
        var b := CachedBlock(height, hash, s.runtime.state, messages);
        if p.blockSent(height).Accepted? then Step(Processed(s, b), None)
        else
          Step(Processed(s, b).(sent := Delivered(s.sent, messages, p.blockSent(height)), ledger := s.ledger),
               Some(SinkFailed))
  }

  function Processed(s: Sync, b: CachedBlock): Sync {
    s.(cache := Push(s.cache, b, s.capacity),
       runtime := Runtime(b.height, b.hash, s.runtime.state, s.runtime.log[b.height := b.messages]),
       sent := s.sent + [b.messages],
       ledger := s.ledger + [b])
  }

  /** Heights `first..=last` in order, up to the first error; `current_height` stays. */
  function RangeStep(s: Sync, first: nat, last: nat, p: Poll): Step
    decreases last + 1 - first
  {
    if first > last then Step(s, None)
    else
      var r := BlockStep(s, first, p);
      if r.error.Some? then r else RangeStep(r.state, first + 1, last, p)
  }

  /** Heights `current_height + 1..=target` in order, `current_height` following each of them. */
  function CatchUpStep(s: Sync, target: nat, p: Poll): Step
    decreases target - s.height
  {
    if s.height >= target then Step(s, None)
    else
      var r := BlockStep(s, s.height + 1, p);
      if r.error.Some? then r else CatchUpStep(r.state.(height := s.height + 1), target, p)
  }

  // ---------------------------------------------------------------- reorganizations

  function FetchHashes(first: nat, last: nat, p: Poll): Result<seq<(nat, Hash)>, Error>
    decreases last + 1 - first
  {
    if first > last then Success([])
    else match p.fetch(first)
      case Found(hash) => Prefixed([(first, hash)], FetchHashes(first + 1, last, p))
      case NotAvailable => Failure(ClientFailed)
      case Unreachable => Failure(ClientFailed)
  }

  function InverseOf(log: map<nat, seq<Message>>, height: nat, ancestor: nat): Result<seq<Message>, Error> {
    match UndoStream(log, height, ancestor)
    case Failure(h) => Failure(NoMessagesFor(h))
    case Success(inverse) => Success(inverse)
  }

  datatype Plan = Plan(ancestor: nat, snapshot: TransformState, inverse: seq<Message>)

  /** What `handle_reorg` works out before it changes anything. */
  function PlanReorg(s: Sync, newHeight: nat, p: Poll): Result<Plan, Error> {
    match FetchHashes(0, newHeight, p)
    case Failure(e) => Failure(e)
    case Success(hashes) =>
      match CommonAncestor(s.cache, hashes)
      case None => Failure(NoCommonAncestor)
      case Some(ancestor) =>
        match BlockAt(s.cache, ancestor)
        case None => Failure(SnapshotNotFound(ancestor))
        case Some(b) =>
          match InverseOf(s.runtime.log, s.height, ancestor)
          case Failure(e) => Failure(e)
          case Success(inverse) => Success(Plan(ancestor, b.snapshot, inverse))
  }

  function Restored(s: Sync, plan: Plan): Sync {
    s.(runtime := s.runtime.(height := plan.ancestor, state := plan.snapshot))
  }

  /** The state once the inverse messages are out and the cache is rolled back. */
  function Undone(s: Sync, plan: Plan): Sync {
    Restored(s, plan).(
      sent := if plan.inverse == [] then s.sent else s.sent + [plan.inverse],
      cache := OrElse(RolledBack(s.cache, plan.ancestor), s.cache),
      ledger := OrElse(RolledBack(s.ledger, plan.ancestor), s.ledger))
  }

  function ReorgStep(s: Sync, newHeight: nat, p: Poll): Step {
    match PlanReorg(s, newHeight, p)
    case Failure(e) => Step(s, Some(e))
    case Success(plan) =>
      if plan.inverse != [] && p.inverseSent.Refused? then
        Step(Restored(s, plan).(sent := Delivered(s.sent, plan.inverse, p.inverseSent)), Some(SinkFailed))
      else if RolledBack(s.cache, plan.ancestor).None? then
        Step(Undone(s, plan).(ledger := s.ledger), Some(NotInCache(plan.ancestor)))
      else RangeStep(Undone(s, plan), plan.ancestor + 1, newHeight, p)
  }

  // ---------------------------------------------------------------- one poll

  /** The greatest height in `1..=top` the client still answers for, or 0. */
  function DeepestAnswered(p: Poll, top: nat): nat {
    if top == 0 then 0 else if p.probe(top).Found? then top else DeepestAnswered(p, top - 1)
  }

  datatype Action = Advance | Follow(target: nat) | Reorg(newHeight: nat) | Idle

  /** What a poll does with the reported height and count. It depends on the cache only through the
      block cached at `current_height`. */
  function Decide(s: Sync, metashrewHeight: nat, blockCount: nat, p: Poll): Action {
    if metashrewHeight > blockCount && blockCount <= s.height && s.height + 1 <= metashrewHeight then Advance
    else
      var target := if metashrewHeight <= blockCount then metashrewHeight else blockCount;
      if target > s.height || s.height == 0 then Follow(target)
      else match BlockAt(s.cache, s.height)
        case None => Idle
        case Some(b) =>
          if p.probe(s.height).Found? then
            if p.probe(s.height).hash != b.hash then Reorg(s.height - 1) else Idle
          else if s.height == 1 then Idle
          else Reorg(DeepestAnswered(p, s.height - 1))
  }

  function PollStep(s: Sync, p: Poll): Step {
    if p.metashrewHeight.None? || p.blockCount.None? then Step(s, Some(ClientFailed))
    else match Decide(s, p.metashrewHeight.value, p.blockCount.value, p)
      case Advance => CatchUpStep(s, s.height + 1, p)
      case Follow(target) => CatchUpStep(s, target, p)
      case Reorg(newHeight) => ReorgStep(s, newHeight, p)
      case Idle => Step(s, None)
  }

  /** A run: one poll after another until the first error. */
  function RunSteps(s: Sync, polls: seq<Poll>): Step {
    if polls == [] then Step(s, None)
    else
      var r := RunSteps(s, polls[..|polls| - 1]);
      if r.error.Some? then r else PollStep(r.state, polls[|polls| - 1])
  }

  function Start(height: nat, capacity: nat): Sync {
    Sync(height, capacity, [], Runtime(0, "", map[], map[]), [], [])
  }

  // ---------------------------------------------------------------- the objects

  /** The sink as the synchronizer sees it: the batches it accepted, in order. */
  class CdcSink {
    var sent: seq<seq<Message>>

    constructor ()
      ensures sent == []
    {
      sent := [];
    }

    method Send(messages: seq<Message>, reply: SendReply) returns (error: Option<Error>)
      modifies this
      ensures sent == Delivered(old(sent), messages, reply)
      ensures error == if reply.Accepted? then None else Some(SinkFailed)
    {
      sent := Delivered(sent, messages, reply);
      return if reply.Accepted? then None else Some(SinkFailed);
    }
  }

  class BlockSynchronizer {
    const runtime: WasmRuntime
    const sink: CdcSink
    const cache: BlockCache
    var currentHeight: nat
    ghost var ledger: seq<CachedBlock>

    ghost function Model(): Sync
      reads this, runtime, sink, cache
    {
      Sync(currentHeight, cache.maxSize, cache.blocks, runtime.Model(), sink.sent, ledger)
    }

    constructor (runtime: WasmRuntime, sink: CdcSink, cache: BlockCache)
      ensures this.runtime == runtime && this.sink == sink && this.cache == cache
      ensures currentHeight == 0 && ledger == []
    {
      this.runtime, this.sink, this.cache := runtime, sink, cache;
      currentHeight, ledger := 0, [];
    }

    static method New(runtime: WasmRuntime, sink: CdcSink, cacheSize: nat)
      returns (r: Result<BlockSynchronizer, Error>)
      ensures r.Failure? <==> cacheSize == 0
      ensures r.Success? ==> fresh(r.value) && r.value.Model() == Sync(0, cacheSize, [], runtime.Model(), sink.sent, [])
      ensures r.Success? && runtime.Model() == Runtime(0, "", map[], map[]) && sink.sent == [] ==>
                r.value.Model() == Start(0, cacheSize)
    {
      var cache := BlockCache.New(cacheSize);
      match cache {
        case Failure(e) =>
          return Failure(e);
        case Success(c) =>
          var synchronizer := new BlockSynchronizer(runtime, sink, c);
          return Success(synchronizer);
      }
    }

    method SetStartingHeight(height: nat)
      modifies this
      ensures Model() == old(Model()).(height := height)
      ensures forall capacity :: old(Model()) == Start(0, capacity) ==> Model() == Start(height, capacity)
    {
      currentHeight := height;
    }

    method ProcessBlock(height: nat, p: Poll) returns (error: Option<Error>)
      modifies this`ledger, runtime, sink, cache
      ensures Step(Model(), error) == BlockStep(old(Model()), height, p)
    {
      var reply := p.serve(height);
      if reply.NotAvailable? {
        return None;
      }
      if reply.Unreachable? {
        return Some(ClientFailed);
      }
      var result := runtime.ProcessBlock(height, reply.hash, p.transform(height));
      if result.Failure? {
        return Some(result.error);
      }
      var (messages, snapshot) := result.value;
      var block := CachedBlock(height, reply.hash, snapshot, messages);
      cache.AddBlock(block);
      error := sink.Send(messages, p.blockSent(height));
      if error.None? {
        ledger := ledger + [block];
      }
    }

    method FetchNewHashes(newHeight: nat, p: Poll) returns (r: Result<seq<(nat, Hash)>, Error>)
      ensures r == FetchHashes(0, newHeight, p)
    {
      var newHashes: seq<(nat, Hash)> := [];
      PrefixedTwice(newHashes, [], FetchHashes(0, newHeight, p));
      var height: nat := 0;
      while height <= newHeight
        invariant height <= newHeight + 1
        invariant FetchHashes(0, newHeight, p) == Prefixed(newHashes, FetchHashes(height, newHeight, p))
      {
        var reply := p.fetch(height);
        if !reply.Found? {
          return Failure(ClientFailed);
        }
        PrefixedTwice(newHashes, [(height, reply.hash)], FetchHashes(height + 1, newHeight, p));
        newHashes := newHashes + [(height, reply.hash)];
        height := height + 1;
      }
      assert newHashes + [] == newHashes;
      return Success(newHashes);
    }

    method InverseMessages(ancestor: nat) returns (r: Result<seq<Message>, Error>)
      ensures r == InverseOf(runtime.cdcCache, currentHeight, ancestor)
    {
      var inverseMessages: seq<Message> := [];
      var height: nat := currentHeight;
      PrefixedTwice(inverseMessages, [], UndoStream(runtime.cdcCache, height, ancestor));
      while height > ancestor
        invariant UndoStream(runtime.cdcCache, currentHeight, ancestor)
                  == Prefixed(inverseMessages, UndoStream(runtime.cdcCache, height, ancestor))
      {
        var blockInverse := runtime.ComputeInverseMessages(height);
        if blockInverse.Failure? {
          return Failure(blockInverse.error);
        }
        PrefixedTwice(inverseMessages, blockInverse.value, UndoStream(runtime.cdcCache, height - 1, ancestor));
        inverseMessages := inverseMessages + blockInverse.value;
        height := height - 1;
      }
      assert inverseMessages + [] == inverseMessages;
      return Success(inverseMessages);
    }

    /** The part of a reorg that only reads. */
    method PrepareReorg(newHeight: nat, p: Poll) returns (r: Result<Plan, Error>)
      ensures r == PlanReorg(Model(), newHeight, p)
    {
      var newHashes := FetchNewHashes(newHeight, p);
      if newHashes.Failure? {
        return Failure(newHashes.error);
      }
      var found := cache.FindCommonAncestor(newHashes.value);
      if found.None? {
        return Failure(NoCommonAncestor);
      }
      var ancestor := found.value;
      var block := cache.GetBlockAtHeight(ancestor);
      if block.None? {
        return Failure(SnapshotNotFound(ancestor));
      }
      var inverse := InverseMessages(ancestor);
      if inverse.Failure? {
        return Failure(inverse.error);
      }
      return Success(Plan(ancestor, block.value.snapshot, inverse.value));
    }

    method HandleReorg(newHeight: nat, p: Poll) returns (error: Option<Error>)
      modifies this`ledger, runtime, sink, cache
      ensures Step(Model(), error) == ReorgStep(old(Model()), newHeight, p)
    {
      var planned := PrepareReorg(newHeight, p);
      if planned.Failure? {
        return Some(planned.error);
      }
      error := UndoPlan(planned.value, p);
      if error.Some? {
        return;
      }
      error := ProcessRange(planned.value.ancestor + 1, newHeight, p);
    }

    /** The part of a reorg that goes back to the ancestor. */
    method UndoPlan(plan: Plan, p: Poll) returns (error: Option<Error>)
      modifies this`ledger, runtime, sink, cache
      ensures error == if plan.inverse != [] && p.inverseSent.Refused? then Some(SinkFailed)
                       else if RolledBack(old(cache.blocks), plan.ancestor).None? then Some(NotInCache(plan.ancestor))
                       else None
      ensures error.None? ==> Model() == Undone(old(Model()), plan)
      ensures error == Some(SinkFailed) ==>
                Model() == Restored(old(Model()), plan).(
                  sent := Delivered(old(sink.sent), plan.inverse, p.inverseSent))
      ensures error == Some(NotInCache(plan.ancestor)) ==>
                Model() == Undone(old(Model()), plan).(ledger := old(ledger))
    {
      runtime.SetCurrentHeight(plan.ancestor);
      runtime.SetState(plan.snapshot);
      if plan.inverse != [] {
        error := sink.Send(plan.inverse, p.inverseSent);
        if error.Some? {
          return;
        }
      }
      var rolled := cache.RollBack(plan.ancestor);
      if rolled.Failure? {
        return Some(rolled.error);
      }
      ledger := OrElse(RolledBack(ledger, plan.ancestor), ledger);
      return None;
    }

    method ProcessRange(first: nat, last: nat, p: Poll) returns (error: Option<Error>)
      modifies this`ledger, runtime, sink, cache
      ensures Step(Model(), error) == RangeStep(old(Model()), first, last, p)
    {
      var height := first;
      while height <= last
        invariant RangeStep(old(Model()), first, last, p) == RangeStep(Model(), height, last, p)
        decreases last + 1 - height
      {
        error := ProcessBlock(height, p);
        if error.Some? {
          return;
        }
        height := height + 1;
      }
      return None;
    }

    method CatchUp(target: nat, p: Poll) returns (error: Option<Error>)
      modifies this, runtime, sink, cache
      ensures Step(Model(), error) == CatchUpStep(old(Model()), target, p)
    {
      while currentHeight < target
        invariant CatchUpStep(old(Model()), target, p) == CatchUpStep(Model(), target, p)
      {
        var height := currentHeight + 1;
        error := ProcessBlock(height, p);
        if error.Some? {
          return;
        }
        currentHeight := height;
      }
      return None;
    }

    /** The search for a deep reorg; the one call it makes is the one `DeepestAnswered` names. */
    method DeepReorg(p: Poll) returns (error: Option<Error>)
      requires currentHeight > 0
      modifies this`ledger, runtime, sink, cache
      ensures old(currentHeight) == 1 ==> Step(Model(), error) == Step(old(Model()), None)
      ensures old(currentHeight) > 1 ==>
                Step(Model(), error) == ReorgStep(old(Model()), DeepestAnswered(p, old(currentHeight) - 1), p)
    {
      var testHeight: nat := currentHeight - 1;
      while testHeight > 0
        invariant Model() == old(Model())
        invariant DeepestAnswered(p, currentHeight - 1) == DeepestAnswered(p, testHeight)
        invariant testHeight == 0 ==> currentHeight == 1
      {
        if p.probe(testHeight).Found? {
          error := HandleReorg(testHeight, p);
          return;
        }
        testHeight := testHeight - 1;
        if testHeight == 0 {
          error := HandleReorg(0, p);
          return;
        }
      }
      return None;
    }

    method PollOnce(p: Poll) returns (error: Option<Error>)
      modifies this, runtime, sink, cache
      ensures Step(Model(), error) == PollStep(old(Model()), p)
    {
      if p.metashrewHeight.None? || p.blockCount.None? {
        return Some(ClientFailed);
      }
      var metashrewHeight, blockCount := p.metashrewHeight.value, p.blockCount.value;
      if metashrewHeight > blockCount && blockCount <= currentHeight {
        var next := currentHeight + 1;
        if next <= metashrewHeight {
          error := ProcessBlock(next, p);
          if error.None? {
            currentHeight := next;
            assert CatchUpStep(Model(), next, p) == Step(Model(), None);
          }
          return;
        }
      }
      var target := if metashrewHeight <= blockCount then metashrewHeight else blockCount;
      if target > currentHeight || currentHeight == 0 {
        error := CatchUp(target, p);
      } else {
        var cached := cache.GetBlockHash(currentHeight);
        if cached.Some? {
          match p.probe(currentHeight) {
            case Found(hash) =>
              if hash != cached.value {
                error := HandleReorg(currentHeight - 1, p);
                return;
              }
            case NotAvailable =>
              error := DeepReorg(p);
              return;
            case Unreachable =>
              error := DeepReorg(p);
              return;
          }
        }
        error := None;
      }
    }

    method Run(polls: seq<Poll>) returns (error: Option<Error>)
      modifies this, runtime, sink, cache
      ensures Step(Model(), error) == RunSteps(old(Model()), polls)
    {
      error := None;
      for i := 0 to |polls|
        invariant error.None? && Step(Model(), None) == RunSteps(old(Model()), polls[..i])
      {
        assert polls[..i + 1][..i] == polls[..i];
        error := PollOnce(polls[i]);
        if error.Some? {
          RunStops(old(Model()), polls, i + 1);
          return;
        }
      }
      assert polls[..|polls|] == polls;
    }
  }

  /** Once a poll has failed, later polls change nothing. */
  lemma {:induction false} RunStops(s: Sync, polls: seq<Poll>, n: nat)
    requires n <= |polls| && RunSteps(s, polls[..n]).error.Some?
    ensures RunSteps(s, polls) == RunSteps(s, polls[..n])
    decreases |polls|
  {
    if n == |polls| {
      assert polls[..n] == polls;
    } else {
      var init := polls[..|polls| - 1];
      assert init[..n] == polls[..n];
      RunStops(s, init, n);
    }
  }
}
