/** The length-prefixed frames that cross the boundary between host and transform module. */
module Wire {
  import opened Wrappers
  import opened Cdc
  import opened Runtimes
  import opened Encodings

  const U32: nat := 0x1_0000_0000
  const LIMIT: nat := 10_000_000

  /** The length goes through a 32-bit integer, whatever the payload's real length. */
  function Frame(payload: seq<byte>): seq<byte> {
    ToLE(|payload|, 4) + payload
  }

  /** The bytes announced by the prefix at `ptr`, unless they leave the memory. */
  function ReadFrame(memory: seq<byte>, ptr: nat): Option<seq<byte>> {
    if |memory| < ptr + 4 then None
    else
      var len := FromLE(memory[ptr..ptr + 4]);
      if |memory| < ptr + 4 + len then None else Some(memory[ptr + 4..ptr + 4 + len])
  }

  lemma {:induction false} HighBytesCut(n: nat, k: nat, q: nat)
    ensures ToLE(n + Pow256(k) * q, k) == ToLE(n, k)
  {
    if k > 0 {
      var rest := Pow256(k - 1) * q;
      assert Pow256(k) * q == 256 * rest;
      assert (n + 256 * rest) / 256 == n / 256 + rest;
      HighBytesCut(n / 256, k - 1, q);
    }
  }

  /** Four bytes keep a number up to multiples of 2^32. */
  lemma LowWord(n: nat)
    ensures FromLE(ToLE(n, 4)) == n % U32
  {
    U32Range();
    HighBytesCut(n % U32, 4, n / U32);
    LERoundTrip(n % U32, 4);
  }

  /** A frame spelled out: the low 32 bits of the length, least significant byte first, then the payload. */
  lemma FrameBytes(payload: seq<byte>)
    ensures |Frame(payload)| == 4 + |payload| && Frame(payload)[4..] == payload
    ensures var f := Frame(payload); Word(f[0], f[1], f[2], f[3]) == |payload| % U32
  {
    LowWord(|payload|);
    assert Frame(payload)[..4] == ToLE(|payload|, 4);
    FourBytes(Frame(payload)[..4]);
  }

  /** A frame placed anywhere in memory decodes to its payload exactly when the length fits 32 bits. */
  lemma FrameRoundTripExactly(before: seq<byte>, payload: seq<byte>, after: seq<byte>)
    ensures ReadFrame(before + Frame(payload) + after, |before|) == Some(payload) <==> |payload| < U32
  {
    var memory, ptr := before + Frame(payload) + after, |before|;
    U32Range();
    LowWord(|payload|);
    assert memory[ptr..ptr + 4] == ToLE(|payload|, 4);
    var len := |payload| % U32;
    assert memory[ptr + 4..ptr + 4 + len] == payload[..len];
    if |payload| < U32 {
      assert payload[..len] == payload;
    }
  }

  /** The layout of data: it reads back, from any place it is copied to, when its length fits 32 bits. */
  method ToArraybufferLayout(data: seq<byte>) returns (result: seq<byte>)
    ensures result == Frame(data)
    ensures ReadFrame(result, 0) == Some(data) <==> |data| < U32
  {
    result := [];
    result := result + ToLE(|data|, 4);
    result := result + data;
    FrameAlone(data);
  }

  lemma FrameAlone(data: seq<byte>)
    ensures ReadFrame(Frame(data), 0) == Some(data) <==> |data| < U32
  {
    var none: seq<byte> := [];
    assert none + Frame(data) + none == Frame(data);
    FrameRoundTripExactly(none, data, none);
  }

  /** Reading where a layout was copied gives its data back, whatever lies around it. */
  method PtrToVec(
      memory: seq<byte>, ptr: nat, ghost before: seq<byte>, ghost data: seq<byte>, ghost after: seq<byte>)
    returns (result: seq<byte>)
    requires memory == before + Frame(data) + after && ptr == |before| && |data| < U32
    ensures result == data
  {
    FrameRoundTripExactly(before, data, after);
    var len := FromLE(memory[ptr..ptr + 4]);
    result := memory[ptr + 4..ptr + 4 + len];
  }

  /** A stream of frames splits in one way only; in particular no frame is a proper prefix of another. */
  lemma FramesSplitOnce(a: seq<byte>, b: seq<byte>, x: seq<byte>, y: seq<byte>)
    requires |a| < U32 && |b| < U32 && Frame(a) + x == Frame(b) + y
    ensures a == b && x == y
  {
    var stream := Frame(a) + x;
    assert ToLE(|a|, 4) == stream[..4] == ToLE(|b|, 4);
    SamePrefixSameLength(|a|, |b|);
    SplitAt(ToLE(|a|, 4), a, x, b, y);
  }

  lemma SamePrefixSameLength(m: nat, n: nat)
    requires m < U32 && n < U32 && ToLE(m, 4) == ToLE(n, 4)
    ensures m == n
  {
    LowWord(m);
    LowWord(n);
  }

  lemma SplitAt(prefix: seq<byte>, a: seq<byte>, x: seq<byte>, b: seq<byte>, y: seq<byte>)
    requires |a| == |b| && prefix + a + x == prefix + b + y
    ensures a == b && x == y
  {
    var stream := prefix + a + x;
    assert a == stream[|prefix|..|prefix| + |a|] && x == stream[|prefix| + |a|..];
    assert b == stream[|prefix|..|prefix| + |a|] && y == stream[|prefix| + |a|..];
  }

  // ---------------------------------------------------------------- the host's reader

  /** What the host makes of an address returned by the module; only `process_block` has a limit. */
  function DecodeReply(
      ptr: int, memory: seq<byte>, limit: Option<nat>, parse: seq<byte> -> Option<seq<Message>>): TransformReply
  {
    if ptr < 0 then TransformError
    else if ptr == 0 then Messages([])
    else if |memory| < ptr + 4 then TransformError
    else
      var len := FromLE(memory[ptr..ptr + 4]);
      if len == 0 || (limit.Some? && len > limit.value) then Messages([])
      else match ReadFrame(memory, ptr)
        case None => TransformError
        case Some(data) => (match parse(data) case None => TransformError case Some(messages) => Messages(messages))
  }

  /** The length announced at an address: four bytes, the least significant first. */
  function Announced(memory: seq<byte>, ptr: nat): int
    requires ptr + 4 <= |memory|
  {
    Word(memory[ptr], memory[ptr + 1], memory[ptr + 2], memory[ptr + 3])
  }

  /** A frame can be read exactly when its prefix and the bytes it announces lie in memory; these are then read. */
  lemma ReadFrameExactly(memory: seq<byte>, ptr: nat)
    ensures ReadFrame(memory, ptr).Some? <==> ptr + 4 <= |memory| && ptr + 4 + Announced(memory, ptr) <= |memory|
    ensures ReadFrame(memory, ptr).Some? ==>
              ReadFrame(memory, ptr).value == memory[ptr + 4..ptr + 4 + Announced(memory, ptr)]
    ensures ptr + 4 <= |memory| ==> FromLE(memory[ptr..ptr + 4]) == Announced(memory, ptr)
  {
    if ptr + 4 <= |memory| {
      FourBytes(memory[ptr..ptr + 4]);
    }
  }

  /** The address names a frame that is neither empty nor over the limit. */
  predicate IsText(ptr: int, memory: seq<byte>, limit: Option<nat>) {
    && 0 < ptr && ptr + 4 <= |memory| && 0 < Announced(memory, ptr)
    && (limit.Some? ==> Announced(memory, ptr) <= limit.value)
  }

  /** How a reply of the module ends, each outcome with its exact cause. It is an error if the module returned a
      negative code, if a prefix leaves memory, or if a text does or cannot be parsed. No messages are read at
      address 0, for length 0 and for a length over the limit. Otherwise they are what the text parses to. */
  lemma DecodeExactly(
      ptr: int, memory: seq<byte>, limit: Option<nat>, parse: seq<byte> -> Option<seq<Message>>)
    ensures DecodeReply(ptr, memory, limit, parse) == TransformError
            <==> || ptr < 0 || (0 < ptr && |memory| < ptr + 4)
                 || (IsText(ptr, memory, limit)
                     && (|memory| < ptr + 4 + Announced(memory, ptr)
                         || parse(memory[ptr + 4..ptr + 4 + Announced(memory, ptr)]).None?))
    ensures ptr == 0 || (0 < ptr && ptr + 4 <= |memory| && !IsText(ptr, memory, limit)) ==>
              DecodeReply(ptr, memory, limit, parse) == Messages([])
    ensures IsText(ptr, memory, limit) && ptr + 4 + Announced(memory, ptr) <= |memory| ==>
              var parsed := parse(memory[ptr + 4..ptr + 4 + Announced(memory, ptr)]);
              parsed.Some? ==> DecodeReply(ptr, memory, limit, parse) == Messages(parsed.value)
  {
    if 0 < ptr {
      ReadFrameExactly(memory, ptr);
    }
  }

  /** The host gets back the module's messages exactly when their text is within the limit or they are none:
      a longer list is taken for an empty one without an error. */
  lemma HostReadsExactly(
      before: seq<byte>, after: seq<byte>, messages: seq<Message>,
      encode: seq<Message> -> seq<byte>, parse: seq<byte> -> Option<seq<Message>>)
    requires parse(encode(messages)) == Some(messages) && 0 < |encode(messages)| < U32 && before != []
    ensures DecodeReply(|before|, before + Frame(encode(messages)) + after, Some(LIMIT), parse) == Messages(messages)
            <==> |encode(messages)| <= 10_000_000 || messages == []
    ensures DecodeReply(|before|, before + Frame(encode(messages)) + after, None, parse) == Messages(messages)
  {
    var text := encode(messages);
    var memory, ptr := before + Frame(text) + after, |before|;
    FrameRoundTripExactly(before, text, after);
    U32Range();
    LERoundTrip(|text|, 4);
    assert memory[ptr..ptr + 4] == ToLE(|text|, 4);
  }
}
