/** Test blocks: printing them, reading them back, and chains that fork. */
module BlockBuilding {
  import opened Wrappers
  import opened Encodings

  const MIN_SIZE: nat := 64
  const GENESIS_TIME: nat := 1231006505

  function Zeros(n: nat): (z: seq<byte>)
    ensures |z| == n && forall i | 0 <= i < n :: z[i] == 0
  {
    seq(n, i => 0)
  }

  function Ascii(s: string): (bytes: seq<byte>)
    ensures |bytes| == |s|
    ensures forall i | 0 <= i < |s| && s[i] as int < 256 :: bytes[i] == s[i] as int
  {
    seq(|s|, i requires 0 <= i < |s| => s[i] as int % 256)
  }

  function Body(height: nat, content: seq<byte>): seq<byte> {
    if content == [] then Ascii("block_" + Decimal(height)) else content
  }

  function Padded(block: seq<byte>): seq<byte> {
    if |block| < MIN_SIZE then block + Zeros(MIN_SIZE - |block|) else block
  }

  function Built(height: nat, timestamp: nat, content: seq<byte>): seq<byte> {
    Padded(ToLE(height, 4) + ToLE(timestamp, 8) + Body(height, content))
  }

  method Build(height: nat, timestamp: nat, content: seq<byte>) returns (block: seq<byte>)
    ensures block == Built(height, timestamp, content)
    ensures |block| >= MIN_SIZE
  {
    block := ToLE(height, 4);
    block := block + ToLE(timestamp, 8);
    if content == [] {
      block := block + Ascii("block_" + Decimal(height));
    } else {
      block := block + content;
    }
    ghost var unpadded := block;
    while |block| < MIN_SIZE
      invariant |unpadded| <= |block| && block == unpadded + Zeros(|block| - |unpadded|)
      invariant |block| <= MIN_SIZE || block == unpadded
    {
      block := block + [0];
    }
  }

  // ---------------------------------------------------------------- reading back

  function ExtractHeight(block: seq<byte>): (r: Option<nat>)
    ensures r.Some? <==> 4 <= |block|
  {
    if |block| >= 4 then Some(FromLE(block[..4])) else None
  }

  function ExtractTimestamp(block: seq<byte>): (r: Option<nat>)
    ensures r.Some? <==> 12 <= |block|
  {
    if |block| >= 12 then Some(FromLE(block[4..12])) else None
  }

  predicate ZerosAt(s: seq<byte>, i: nat) {
    i + 4 <= |s| && s[i] == s[i + 1] == s[i + 2] == s[i + 3] == 0
  }

  /** The first place where four zero bytes follow one another. */
  function FirstZeros(s: seq<byte>, i: nat): (r: Option<nat>)
    ensures r.Some? ==> i <= r.value && ZerosAt(s, r.value) && forall j | i <= j < r.value :: !ZerosAt(s, j)
    ensures r.None? ==> forall j | i <= j :: !ZerosAt(s, j)
    decreases |s| - i
  {
    if i + 4 > |s| then None else if ZerosAt(s, i) then Some(i) else FirstZeros(s, i + 1)
  }

  function ExtractContent(block: seq<byte>): (r: Option<seq<byte>>)
    ensures r.Some? <==> 12 < |block|
    ensures r.Some? ==> r.value <= block[12..]
    ensures r.Some? ==> |r.value| == |block| - 12 || ZerosAt(block[12..], |r.value|)
    ensures r.Some? ==> forall i: nat | i < |r.value| :: !ZerosAt(block[12..], i)
  {
    if |block| <= 12 then None
    else
      var slice := block[12..];
      match FirstZeros(slice, 0)
      case Some(padding) => Some(slice[..padding])
      case None => Some(slice)
  }

  /** Height and timestamp are read back for every value of their widths and any content. */
  lemma HeaderRoundTrip(height: nat, timestamp: nat, content: seq<byte>)
    requires height < 0x1_0000_0000 && timestamp < 0x1_0000_0000_0000_0000
    ensures ExtractHeight(Built(height, timestamp, content)) == Some(height)
    ensures ExtractTimestamp(Built(height, timestamp, content)) == Some(timestamp)
  {
    var block := Built(height, timestamp, content);
    U32Range();
    U64Range();
    LERoundTrip(height, 4);
    LERoundTrip(timestamp, 8);
    assert block[..4] == ToLE(height, 4);
    assert block[4..12] == ToLE(timestamp, 8);
  }

  /** What follows the header: the content and its padding. */
  lemma BuiltSlice(height: nat, timestamp: nat, content: seq<byte>)
    requires content != []
    ensures var block := Built(height, timestamp, content);
            && |block| > 12
            && block[12..] == content + Zeros(if |content| < 52 then 52 - |content| else 0)
  {
  }

  /** The content is read back exactly when it is not empty, holds no run of four zero bytes, and either leaves
      room for a recognisable padding and does not end in a zero, or needs no padding at all. */
  lemma ContentRoundTripExactly(height: nat, timestamp: nat, content: seq<byte>)
    ensures ExtractContent(Built(height, timestamp, content)) == Some(content)
            <==> content != [] && (forall i: nat :: !ZerosAt(content, i))
                 && ((|content| <= 48 && content[|content| - 1] != 0) || |content| >= 52)
  {
    if content == [] {
      EmptyContentIsReplaced(height, timestamp);
    } else {
      NonEmptyRoundTrip(height, timestamp, content);
    }
  }

  lemma NonEmptyRoundTrip(height: nat, timestamp: nat, content: seq<byte>)
    requires content != []
    ensures ExtractContent(Built(height, timestamp, content)) == Some(content)
            <==> (forall i: nat :: !ZerosAt(content, i))
                 && ((|content| <= 48 && content[|content| - 1] != 0) || |content| >= 52)
  {
    var n := |content|;
    var slice := content + Zeros(if n < 52 then 52 - n else 0);
    BuiltSlice(height, timestamp, content);
    assert forall i: nat | i + 4 <= n :: ZerosAt(content, i) <==> ZerosAt(slice, i);
    var first := FirstZeros(slice, 0);
    if n <= 48 {
      assert ZerosAt(slice, n);
      if content[n - 1] == 0 {
        assert ZerosAt(slice, n - 1);
      } else {
        assert forall i: nat | i < n && n < i + 4 :: !ZerosAt(slice, i);
      }
    } else if n < 52 {
      assert first.None? ==> |slice| != n;
    } else {
      assert slice == content;
    }
  }

  /** An empty content is not read back as empty: the builder prints a default instead. */
  lemma EmptyContentIsReplaced(height: nat, timestamp: nat)
    ensures ExtractContent(Built(height, timestamp, [])) != Some([])
  {
    var block := Built(height, timestamp, []);
    var body := Ascii("block_" + Decimal(height));
    assert block[12] == body[0] == 'b' as int;
    assert !ZerosAt(block[12..], 0);
  }

  /** The text is not empty, leaves room for padding, and holds no zero byte. */
  predicate IsShortText(s: string) {
    0 < |s| <= 48 && forall c | c in s :: 0 < c as int < 256
  }

  /** A short text is read back for any height and timestamp. */
  lemma TextReads(height: nat, timestamp: nat, s: string)
    requires IsShortText(s)
    ensures ExtractContent(Built(height, timestamp, Ascii(s))) == Some(Ascii(s))
  {
    var content := Ascii(s);
    forall i | 0 <= i < |content|
      ensures content[i] != 0
    {
      assert s[i] in s;
    }
    assert forall i: nat :: !ZerosAt(content, i);
    ContentRoundTripExactly(height, timestamp, content);
  }

  /** A name followed by a number of 32 bits is a short text. */
  lemma NumberedText(name: string, n: nat)
    requires |name| <= 38 && (forall c | c in name :: 0 < c as int < 256) && n < 0x1_0000_0000
    ensures IsShortText(name + Decimal(n))
  {
    TenDigits();
    DecimalLength(n, 10);
    DecimalReads(n);
  }

  lemma TenDigits()
    ensures Pow10(10) == 10_000_000_000
  {
    assert Pow10(5) == 100_000;
  }

  /** An empty content prints the block's default one. */
  lemma DefaultContentReads(height: nat, timestamp: nat)
    requires height < 0x1_0000_0000
    ensures ExtractContent(Built(height, timestamp, [])) == Some(Ascii("block_" + Decimal(height)))
  {
    NumberedText("block_", height);
    TextReads(height, timestamp, "block_" + Decimal(height));
  }

  // ---------------------------------------------------------------- forking chains

  function TimeOf(height: nat): nat {
    GENESIS_TIME + height * 600
  }

  function ChainBlock(height: nat, content: seq<byte>): seq<byte> {
    Built(height, TimeOf(height), content)
  }

  /** What a forked chain holds at each height: genesis, default blocks up to the fork, named ones after. */
  function ContentAt(height: nat, common: nat, name: string): seq<byte> {
    if height == 0 then Ascii("genesis_block")
    else if height <= common then []
    else Ascii(name + Decimal(height - common - 1))
  }

  /** The first `n` blocks of such a chain. */
  function Chain(n: nat, common: nat, name: string): (blocks: seq<seq<byte>>)
    ensures |blocks| == n
  {
    if n == 0 then [] else Chain(n - 1, common, name) + [ChainBlock(n - 1, ContentAt(n - 1, common, name))]
  }

  lemma {:induction false} ChainAt(n: nat, common: nat, name: string, h: nat)
    requires h < n
    ensures Chain(n, common, name)[h] == ChainBlock(h, ContentAt(h, common, name))
  {
    if h < n - 1 {
      ChainAt(n - 1, common, name, h);
    }
  }

  /** The next block of a chain, stamped ten minutes after the one before. */
  method AddBlock(blocks: seq<seq<byte>>, content: seq<byte>) returns (longer: seq<seq<byte>>)
    ensures longer == blocks + [ChainBlock(|blocks|, content)]
  {
    var block := Build(|blocks|, TimeOf(|blocks|), content);
    longer := blocks + [block];
  }

  lemma ChainNext(n: nat, common: nat, name: string, content: seq<byte>)
    requires content == ContentAt(n, common, name)
    ensures Chain(n, common, name) + [ChainBlock(n, content)] == Chain(n + 1, common, name)
  {
  }

  method BuildCommon(common: nat, name: string) returns (blocks: seq<seq<byte>>)
    ensures blocks == Chain(common + 1, common, name)
  {
    blocks := AddBlock([], Ascii("genesis_block"));
    ChainNext(0, common, name, Ascii("genesis_block"));
    for i := 0 to common
      invariant blocks == Chain(1 + i, common, name)
    {
      ChainNext(1 + i, common, name, []);
      blocks := AddBlock(blocks, []);
    }
  }

  predicate IsChain(blocks: seq<seq<byte>>, common: nat, name: string) {
    blocks == Chain(|blocks|, common, name)
  }

  method AddNamed(blocks: seq<seq<byte>>, common: nat, name: string, i: nat) returns (longer: seq<seq<byte>>)
    requires IsChain(blocks, common, name) && |blocks| == common + 1 + i
    ensures IsChain(longer, common, name) && |longer| == |blocks| + 1
  {
    var content := Ascii(name + Decimal(i));
    NamedContent(common, name, i);
    longer := AddBlock(blocks, content);
    ChainLonger(blocks, common, name, content);
  }

  lemma NamedContent(common: nat, name: string, i: nat)
    ensures ContentAt(common + 1 + i, common, name) == Ascii(name + Decimal(i))
  {
  }

  lemma ChainLonger(blocks: seq<seq<byte>>, common: nat, name: string, content: seq<byte>)
    requires IsChain(blocks, common, name) && content == ContentAt(|blocks|, common, name)
    ensures IsChain(blocks + [ChainBlock(|blocks|, content)], common, name)
  {
    ChainNext(|blocks|, common, name, content);
  }

  method BuildChain(common: nat, extra: nat, name: string) returns (blocks: seq<seq<byte>>)
    ensures IsChain(blocks, common, name) && |blocks| == common + 1 + extra
  {
    blocks := BuildCommon(common, name);
    var i := 0;
    while i < extra
      invariant i <= extra && |blocks| == common + 1 + i && IsChain(blocks, common, name)
    {
      blocks := AddNamed(blocks, common, name, i);
      i := i + 1;
    }
  }

  lemma NamedBlocksDiffer(height: nat, i: nat)
    ensures ChainBlock(height, Ascii("original_block_" + Decimal(i)))
            != ChainBlock(height, Ascii("reorg_block_" + Decimal(i)))
  {
    var a, b := Ascii("original_block_" + Decimal(i)), Ascii("reorg_block_" + Decimal(i));
    assert ChainBlock(height, a)[12] == a[0] == 'o' as int;
    assert ChainBlock(height, b)[12] == b[0] == 'r' as int;
  }

  lemma ForkedBlocksDiffer(h: nat, common: nat)
    requires common < h
    ensures ChainBlock(h, ContentAt(h, common, "original_block_"))
            != ChainBlock(h, ContentAt(h, common, "reorg_block_"))
  {
    NamedBlocksDiffer(h, h - common - 1);
  }

  predicate ReadsHeights(chain: seq<seq<byte>>) {
    forall h | 0 <= h < |chain| :: ExtractHeight(chain[h]) == Some(h)
  }

  /** Blocks are stamped ten minutes apart from the genesis time on. */
  predicate ReadsTimes(chain: seq<seq<byte>>) {
    forall h | 0 <= h < |chain| :: ExtractTimestamp(chain[h]) == Some(1231006505 + 600 * h)
  }

  /** The text of a block: genesis, default up to the fork, the name and a number from 0 after it. */
  function TextAt(h: nat, common: nat, name: string): string {
    if h == 0 then "genesis_block"
    else if h <= common then "block_" + Decimal(h)
    else name + Decimal(h - common - 1)
  }

  predicate ReadsTexts(chain: seq<seq<byte>>, common: nat, name: string) {
    forall h | 0 <= h < |chain| :: ExtractContent(chain[h]) == Some(Ascii(TextAt(h, common, name)))
  }

  lemma ChainTexts(blocks: seq<seq<byte>>, common: nat, name: string)
    requires IsChain(blocks, common, name) && |blocks| <= 0x1_0000_0000
    requires |name| <= 38 && forall c | c in name :: 0 < c as int < 256
    ensures ReadsTexts(blocks, common, name) && ReadsTimes(blocks)
  {
    forall h | 0 <= h < |blocks|
      ensures ExtractContent(blocks[h]) == Some(Ascii(TextAt(h, common, name)))
      ensures ExtractTimestamp(blocks[h]) == Some(1231006505 + 600 * h)
    {
      ChainAt(|blocks|, common, name, h);
      BlockTime(h, ContentAt(h, common, name));
      BlockText(h, common, name);
    }
  }

  lemma BlockTime(h: nat, content: seq<byte>)
    requires h < 0x1_0000_0000
    ensures ExtractTimestamp(ChainBlock(h, content)) == Some(1231006505 + 600 * h)
  {
    TimesFit(h);
    HeaderRoundTrip(h, TimeOf(h), content);
  }

  lemma BlockText(h: nat, common: nat, name: string)
    requires h < 0x1_0000_0000 && |name| <= 38 && forall c | c in name :: 0 < c as int < 256
    ensures ExtractContent(ChainBlock(h, ContentAt(h, common, name))) == Some(Ascii(TextAt(h, common, name)))
  {
    if h == 0 {
      TextReads(0, TimeOf(0), "genesis_block");
    } else if h <= common {
      DefaultContentReads(h, TimeOf(h));
    } else {
      NumberedText(name, h - common - 1);
      TextReads(h, TimeOf(h), name + Decimal(h - common - 1));
    }
  }

  predicate SameUpTo(a: seq<seq<byte>>, b: seq<seq<byte>>, common: nat) {
    forall h | 0 <= h < |a| && h < |b| && h <= common :: a[h] == b[h]
  }

  predicate DifferAbove(a: seq<seq<byte>>, b: seq<seq<byte>>, common: nat) {
    forall h | common < h < |a| && h < |b| :: a[h] != b[h]
  }

  lemma ChainHeights(blocks: seq<seq<byte>>, common: nat, name: string)
    requires IsChain(blocks, common, name) && |blocks| <= 0x1_0000_0000
    ensures ReadsHeights(blocks)
  {
    forall h | 0 <= h < |blocks|
      ensures ExtractHeight(blocks[h]) == Some(h)
    {
      ChainAt(|blocks|, common, name, h);
      TimesFit(h);
      HeaderRoundTrip(h, TimeOf(h), ContentAt(h, common, name));
    }
  }

  lemma TimesFit(h: nat)
    requires h < 0x1_0000_0000
    ensures TimeOf(h) < 0x1_0000_0000_0000_0000
  {
  }

  lemma ChainsAgree(a: seq<seq<byte>>, b: seq<seq<byte>>, common: nat)
    requires IsChain(a, common, "original_block_") && IsChain(b, common, "reorg_block_")
    ensures SameUpTo(a, b, common)
  {
    forall h | 0 <= h < |a| && h < |b| && h <= common
      ensures a[h] == b[h]
    {
      ChainAt(|a|, common, "original_block_", h);
      ChainAt(|b|, common, "reorg_block_", h);
    }
  }

  lemma ChainsDiffer(a: seq<seq<byte>>, b: seq<seq<byte>>, common: nat)
    requires IsChain(a, common, "original_block_") && IsChain(b, common, "reorg_block_")
    ensures DifferAbove(a, b, common)
  {
    forall h | common < h < |a| && h < |b|
      ensures a[h] != b[h]
    {
      ChainAt(|a|, common, "original_block_", h);
      ChainAt(|b|, common, "reorg_block_", h);
      ForkedBlocksDiffer(h, common);
    }
  }

  /** The two chains of a reorg scenario agree on genesis and the common blocks and at no later height. */
  method CreateReorgScenario(common: nat, original: nat, reorg: nat)
    returns (originalChain: seq<seq<byte>>, reorgChain: seq<seq<byte>>)
    requires common + 1 + original <= 0x1_0000_0000 && common + 1 + reorg <= 0x1_0000_0000
    ensures |originalChain| == common + 1 + original && |reorgChain| == common + 1 + reorg
    ensures SameUpTo(originalChain, reorgChain, common) && DifferAbove(originalChain, reorgChain, common)
    ensures ReadsHeights(originalChain) && ReadsHeights(reorgChain)
    ensures ReadsTimes(originalChain) && ReadsTimes(reorgChain)
    ensures ReadsTexts(originalChain, common, "original_block_") && ReadsTexts(reorgChain, common, "reorg_block_")
  {
    originalChain := BuildChain(common, original, "original_block_");
    reorgChain := BuildChain(common, reorg, "reorg_block_");
    ChainsAgree(originalChain, reorgChain, common);
    ChainsDiffer(originalChain, reorgChain, common);
    ChainHeights(originalChain, common, "original_block_");
    ChainHeights(reorgChain, common, "reorg_block_");
    ChainTexts(originalChain, common, "original_block_");
    ChainTexts(reorgChain, common, "reorg_block_");
  }
}
