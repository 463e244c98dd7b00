/** The runtime around the transform module: its message log and the inversion of logged blocks. */
module Runtimes {
  import opened Wrappers
  import opened Errors
  import opened Cdc
  import opened BlockCaching

  /** What one call into the transform module came back with, after decoding. */
  datatype TransformReply = Messages(messages: seq<Message>) | TransformError

  datatype Runtime = Runtime(
    height: nat,
    hash: Hash,
    state: TransformState,
    log: map<nat, seq<Message>>)

  // ---------------------------------------------------------------- inverse streams

  /** The messages that undo the blocks `height`, `height - 1`, ..., `ancestor + 1`, or the first
      height that was never logged. */
  function UndoStream(log: map<nat, seq<Message>>, height: nat, ancestor: nat): Result<seq<Message>, nat>
    decreases height
  {
    if height <= ancestor then Success([])
    else if height !in log then Failure(height)
    else Prefixed(InvertBlock(log[height], height - 1), UndoStream(log, height - 1, ancestor))
  }

  /** The logged payloads of the same blocks in the order they were produced. */
  function Logged(log: map<nat, seq<Message>>, ancestor: nat, height: nat): seq<Payload>
    decreases height
  {
    if height <= ancestor then []
    else Logged(log, ancestor, height - 1) + (if height in log then Payloads(log[height]) else [])
  }

  /** It fails exactly when a height in the range was never logged, at the greatest such height. */
  lemma {:induction false} UndoStreamFails(log: map<nat, seq<Message>>, height: nat, ancestor: nat)
    ensures UndoStream(log, height, ancestor).Failure? <==> exists h | ancestor < h <= height :: h !in log
    ensures UndoStream(log, height, ancestor).Failure? ==>
              var h := UndoStream(log, height, ancestor).error;
              ancestor < h <= height && h !in log && forall k | h < k <= height :: k in log
    decreases height
  {
    if ancestor < height && height in log {
      UndoStreamFails(log, height - 1, ancestor);
    }
  }

  /** However many blocks are undone, the stream is the reversed inversion of all they logged. */
  lemma {:induction false} UndoStreamInverts(log: map<nat, seq<Message>>, height: nat, ancestor: nat)
    requires UndoStream(log, height, ancestor).Success?
    ensures Payloads(UndoStream(log, height, ancestor).value) == Inverse(Logged(log, ancestor, height))
    decreases height
  {
    if ancestor < height {
      UndoStreamInverts(log, height - 1, ancestor);
      var first, rest := InvertBlock(log[height], height - 1), UndoStream(log, height - 1, ancestor).value;
      PayloadsConcat(first, rest);
      InvertBlockPayloads(log[height], height - 1);
      InverseConcat(Logged(log, ancestor, height - 1), Payloads(log[height]));
    }
  }

  lemma {:induction false} LoggedSplits(log: map<nat, seq<Message>>, ancestor: nat, mid: nat, height: nat)
    requires ancestor <= mid <= height
    ensures Logged(log, ancestor, height) == Logged(log, ancestor, mid) + Logged(log, mid, height)
    decreases height
  {
    if mid < height {
      LoggedSplits(log, ancestor, mid, height - 1);
    }
  }

  // ---------------------------------------------------------------- the stamps of the inverse messages

  /** The height that stamps the inverse messages of a block: one less, wrapping around at 32 bits. */
  function Below(height: nat): nat {
    if height == 0 then 0xFFFF_FFFF else height - 1
  }

  /** Everything logged for the same blocks in the order it was produced, each message with its height. */
  function LoggedMessages(log: map<nat, seq<Message>>, ancestor: nat, height: nat): (logged: seq<(nat, Message)>)
    ensures forall x | x in logged :: ancestor < x.0 <= height && x.0 in log && x.1 in log[x.0]
    decreases height
  {
    if height <= ancestor then []
    else LoggedMessages(log, ancestor, height - 1) + (if height in log then AtHeight(log[height], height) else [])
  }

  function AtHeight(ms: seq<Message>, height: nat): seq<(nat, Message)> {
    seq(|ms|, i requires 0 <= i < |ms| => (height, ms[i]))
  }

  /** The message undoes this one of the block at that height: it comes from the same source, is stamped one
      height lower, and belongs to no transaction. */
  predicate Undoes(m: Message, height: nat, of: Message) {
    && m.header.source == of.header.source && m.header.blockHeight == Below(height)
    && m.header.transactionId.None?
    && m.payload == InvertPayload(of.payload)
  }

  /** One list undoes the other, its last message first. */
  predicate UndoesAll(stream: seq<Message>, logged: seq<(nat, Message)>) {
    && |stream| == |logged|
    && forall i | 0 <= i < |stream| :: Undoes(stream[i], logged[|logged| - 1 - i].0, logged[|logged| - 1 - i].1)
  }

  lemma BlockUndoes(ms: seq<Message>, height: nat)
    ensures UndoesAll(InvertBlock(ms, Below(height)), AtHeight(ms, height))
  {
    InvertBlockStamps(ms, Below(height));
  }

  lemma UndoesMore(first: seq<Message>, newest: seq<(nat, Message)>, rest: seq<Message>, below: seq<(nat, Message)>)
    requires UndoesAll(first, newest) && UndoesAll(rest, below)
    ensures UndoesAll(first + rest, below + newest)
  {
    var stream, logged := first + rest, below + newest;
    forall i | 0 <= i < |stream|
      ensures Undoes(stream[i], logged[|logged| - 1 - i].0, logged[|logged| - 1 - i].1)
    {
      if i < |first| {
        assert logged[|logged| - 1 - i] == newest[|newest| - 1 - i];
      } else {
        assert logged[|logged| - 1 - i] == below[|below| - 1 - (i - |first|)];
      }
    }
  }

  /** The inverse stream, message by message: over any number of blocks it undoes everything logged, the last
      message first, each stamped just below its own block. */
  lemma {:induction false} UndoStreamStamps(log: map<nat, seq<Message>>, height: nat, ancestor: nat)
    requires UndoStream(log, height, ancestor).Success?
    ensures UndoesAll(UndoStream(log, height, ancestor).value, LoggedMessages(log, ancestor, height))
    decreases height
  {
    if ancestor < height {
      UndoStreamStamps(log, height - 1, ancestor);
      BlockUndoes(log[height], height);
      UndoesMore(
        InvertBlock(log[height], height - 1), AtHeight(log[height], height),
        UndoStream(log, height - 1, ancestor).value, LoggedMessages(log, ancestor, height - 1));
    }
  }

  // ---------------------------------------------------------------- the runtime object

  class WasmRuntime {
    var currentHeight: nat
    var currentHash: Hash
    var state: TransformState
    var cdcCache: map<nat, seq<Message>>

    function Model(): Runtime
      reads this
    {
      Runtime(currentHeight, currentHash, state, cdcCache)
    }

    constructor ()
      ensures Model() == Runtime(0, "", map[], map[])
    {
      currentHeight, currentHash, state, cdcCache := 0, "", map[], map[];
    }

    method SetCurrentHeight(height: nat)
      modifies this
      ensures Model() == old(Model()).(height := height)
    {
      currentHeight := height;
    }

    method SetCurrentHash(hash: Hash)
      modifies this
      ensures Model() == old(Model()).(hash := hash)
    {
      currentHash := hash;
    }

    method SetState(state: TransformState)
      modifies this
      ensures Model() == old(Model()).(state := state)
    {
      this.state := state;
    }

    /** The block is logged only when the call into the module succeeded; the state is never touched. */
    method ProcessBlock(height: nat, hash: Hash, reply: TransformReply)
      returns (r: Result<(seq<Message>, TransformState), Error>)
      modifies this
      ensures reply.TransformError? ==> r == Failure(TransformFailed)
                                        && Model() == old(Model()).(height := height, hash := hash)
      ensures reply.Messages? ==> r == Success((reply.messages, old(state)))
                                  && Model() == Runtime(
                                       height, hash, old(state), old(cdcCache)[height := reply.messages])
    {
      SetCurrentHeight(height);
      SetCurrentHash(hash);
      match reply {
        case TransformError =>
          return Failure(TransformFailed);
        case Messages(messages) =>
          cdcCache := cdcCache[height := messages];
          return Success((messages, state));
      }
    }

    method ComputeInverseMessages(height: nat) returns (r: Result<seq<Message>, Error>)
      ensures r.Success? <==> height in cdcCache
      ensures r.Success? ==> r.value == InvertBlock(cdcCache[height], Below(height))
      ensures r.Success? ==>
                var ms := cdcCache[height];
                && |r.value| == |ms|
                && forall i | 0 <= i < |ms| ::
                     && r.value[i].header.source == ms[|ms| - 1 - i].header.source
                     && r.value[i].header.blockHeight == (if height == 0 then 0xFFFF_FFFF else height - 1)
                     && r.value[i].header.transactionId.None?
                     && r.value[i].payload == InvertPayload(ms[|ms| - 1 - i].payload)
      ensures r.Failure? ==> r.error == NoMessagesFor(height)
    {
      if height !in cdcCache {
        return Failure(NoMessagesFor(height));
      }
      var messages := cdcCache[height];
      var inverse := [];
      var i := |messages|;
      while i > 0
        invariant 0 <= i <= |messages|
        invariant inverse == InvertBlock(messages, Below(height))[..|messages| - i]
      {
        i := i - 1;
        inverse := inverse + [InvertMessage(messages[i], Below(height))];
      }
      InvertBlockStamps(messages, Below(height));
      return Success(inverse);
    }
  }
}
