/** The bounded block cache, and the unbounded history it has to answer like. */
module BlockCaching {
  import opened Wrappers
  import opened Errors
  import opened Cdc

  /** Block hashes are compared in their hex form. */
  type Hash = string
  type TransformState = map<string, string>

  datatype CachedBlock = CachedBlock(height: nat, hash: Hash, snapshot: TransformState, messages: seq<Message>)

  // ---------------------------------------------------------------- lookups

  function IndexOf(blocks: seq<CachedBlock>, height: nat): (r: Option<nat>)
    ensures r.Some? ==> r.value < |blocks| && blocks[r.value].height == height
    ensures r.Some? ==> forall j | 0 <= j < r.value :: blocks[j].height != height
    ensures r.None? ==> forall j | 0 <= j < |blocks| :: blocks[j].height != height
  {
    if blocks == [] then None
    else if blocks[0].height == height then Some(0)
    else match IndexOf(blocks[1..], height)
      case None => assert blocks == [blocks[0]] + blocks[1..]; None
      case Some(i) => assert blocks == [blocks[0]] + blocks[1..]; Some(i + 1)
  }

  function BlockAt(blocks: seq<CachedBlock>, height: nat): Option<CachedBlock> {
    match IndexOf(blocks, height)
    case None => None
    case Some(i) => Some(blocks[i])
  }

  function HashAt(blocks: seq<CachedBlock>, height: nat): Option<Hash> {
    match BlockAt(blocks, height)
    case None => None
    case Some(b) => Some(b.hash)
  }

  function BlockWithHash(blocks: seq<CachedBlock>, hash: Hash): Option<CachedBlock> {
    if blocks == [] then None
    else if blocks[0].hash == hash then Some(blocks[0])
    else BlockWithHash(blocks[1..], hash)
  }

  function AllMessages(blocks: seq<CachedBlock>): seq<Message> {
    if blocks == [] then []
    else AllMessages(blocks[..|blocks| - 1]) + blocks[|blocks| - 1].messages
  }

  lemma {:induction false} AllMessagesConcat(a: seq<CachedBlock>, b: seq<CachedBlock>)
    ensures AllMessages(a + b) == AllMessages(a) + AllMessages(b)
    decreases |b|
  {
    if b == [] {
      assert a + b == a;
    } else {
      assert (a + b)[..|a + b| - 1] == a + b[..|b| - 1];
      AllMessagesConcat(a, b[..|b| - 1]);
    }
  }

  function MessagesIn(blocks: seq<CachedBlock>, first: nat, last: nat): seq<Message> {
    if blocks == [] then []
    else
      var b := blocks[|blocks| - 1];
      MessagesIn(blocks[..|blocks| - 1], first, last) + (if first <= b.height <= last then b.messages else [])
  }

  // ---------------------------------------------------------------- updates

  function Push(blocks: seq<CachedBlock>, b: CachedBlock, capacity: nat): seq<CachedBlock> {
    var grown := blocks + [b];
    if |grown| > capacity then grown[1..] else grown
  }

  function RolledBack(blocks: seq<CachedBlock>, height: nat): Option<seq<CachedBlock>> {
    match IndexOf(blocks, height)
    case None => None
    case Some(i) => Some(blocks[..i + 1])
  }

  // ---------------------------------------------------------------- common ancestor

  function InsertDescending(x: (nat, Hash), s: seq<(nat, Hash)>): seq<(nat, Hash)> {
    if s == [] || s[0].0 <= x.0 then [x] + s else [s[0]] + InsertDescending(x, s[1..])
  }

  /** The stable sort on descending height. */
  function SortDescending(s: seq<(nat, Hash)>): seq<(nat, Hash)> {
    if s == [] then [] else InsertDescending(s[0], SortDescending(s[1..]))
  }

  predicate Descending(s: seq<(nat, Hash)>) {
    forall i, j | 0 <= i < j < |s| :: s[j].0 <= s[i].0
  }

  lemma {:induction false} InsertAdds(x: (nat, Hash), s: seq<(nat, Hash)>)
    ensures multiset(InsertDescending(x, s)) == multiset(s) + multiset{x}
  {
    if s != [] && x.0 < s[0].0 {
      InsertAdds(x, s[1..]);
      assert s == [s[0]] + s[1..];
    }
  }

  lemma {:induction false} InsertSorts(x: (nat, Hash), s: seq<(nat, Hash)>)
    requires Descending(s)
    ensures Descending(InsertDescending(x, s))
  {
    if s != [] && x.0 < s[0].0 {
      var rest := InsertDescending(x, s[1..]);
      InsertSorts(x, s[1..]);
      InsertAdds(x, s[1..]);
      forall i | 0 <= i < |rest|
        ensures rest[i].0 <= s[0].0
      {
        assert rest[i] in multiset(rest);
        assert rest[i] == x || rest[i] in s[1..];
      }
    }
  }

  lemma {:induction false} SortSorts(s: seq<(nat, Hash)>)
    ensures Descending(SortDescending(s))
    ensures multiset(SortDescending(s)) == multiset(s)
  {
    if s != [] {
      SortSorts(s[1..]);
      InsertSorts(s[0], SortDescending(s[1..]));
      InsertAdds(s[0], SortDescending(s[1..]));
      assert s == [s[0]] + s[1..];
    }
  }

  function FirstMatch(blocks: seq<CachedBlock>, hashes: seq<(nat, Hash)>): Option<nat> {
    if hashes == [] then None
    else if HashAt(blocks, hashes[0].0) == Some(hashes[0].1) then Some(hashes[0].0)
    else FirstMatch(blocks, hashes[1..])
  }

  function CommonAncestor(blocks: seq<CachedBlock>, hashes: seq<(nat, Hash)>): Option<nat> {
    FirstMatch(blocks, SortDescending(hashes))
  }

  /** Some listed hash for this height is the one cached there. */
  ghost predicate Matches(blocks: seq<CachedBlock>, hashes: seq<(nat, Hash)>, height: nat) {
    exists x | x in hashes :: x.0 == height && HashAt(blocks, height) == Some(x.1)
  }

  lemma {:induction false} FirstMatchIsGreatest(blocks: seq<CachedBlock>, hashes: seq<(nat, Hash)>)
    requires Descending(hashes)
    ensures FirstMatch(blocks, hashes).None? ==> forall k: nat :: !Matches(blocks, hashes, k)
    ensures FirstMatch(blocks, hashes).Some? ==>
              var h := FirstMatch(blocks, hashes).value;
              Matches(blocks, hashes, h) && forall k: nat :: Matches(blocks, hashes, k) ==> k <= h
  {
    if hashes != [] {
      var x, rest := hashes[0], hashes[1..];
      assert hashes == [x] + rest;
      if HashAt(blocks, x.0) == Some(x.1) {
        assert x in hashes;
      } else {
        FirstMatchIsGreatest(blocks, rest);
        forall k
          ensures Matches(blocks, hashes, k) <==> Matches(blocks, rest, k)
        {
        }
      }
    }
  }

  /** For any list, sorted or not: the greatest matching height, and none only if nothing matches. */
  lemma BestCommonAncestor(blocks: seq<CachedBlock>, hashes: seq<(nat, Hash)>)
    ensures CommonAncestor(blocks, hashes).None? <==> forall k: nat :: !Matches(blocks, hashes, k)
    ensures forall h: nat :: CommonAncestor(blocks, hashes) == Some(h) <==>
                        Matches(blocks, hashes, h) && forall k: nat :: Matches(blocks, hashes, k) ==> k <= h
  {
    var sorted := SortDescending(hashes);
    SortSorts(hashes);
    FirstMatchIsGreatest(blocks, sorted);
    forall x
      ensures x in sorted <==> x in hashes
    {
      assert x in sorted <==> x in multiset(sorted);
      assert x in hashes <==> x in multiset(hashes);
    }
    forall k
      ensures Matches(blocks, sorted, k) <==> Matches(blocks, hashes, k)
    {
    }
  }

  // ---------------------------------------------------------------- what the lookups find

  /** The first block from the front at this height, if there is one. */
  lemma BlockAtExactly(blocks: seq<CachedBlock>, height: nat)
    ensures BlockAt(blocks, height).None? <==> forall b | b in blocks :: b.height != height
    ensures forall i | 0 <= i < |blocks| && blocks[i].height == height
                       && (forall j | 0 <= j < i :: blocks[j].height != height) ::
              BlockAt(blocks, height) == Some(blocks[i]) && HashAt(blocks, height) == Some(blocks[i].hash)
    ensures BlockAt(blocks, height).None? ==> HashAt(blocks, height).None?
  {
    if IndexOf(blocks, height).Some? {
      assert blocks[IndexOf(blocks, height).value] in blocks;
    }
  }

  /** The first block from the front with this hash, if there is one. */
  lemma {:induction false} BlockWithHashExactly(blocks: seq<CachedBlock>, hash: Hash)
    ensures BlockWithHash(blocks, hash).None? <==> forall b | b in blocks :: b.hash != hash
    ensures forall i | 0 <= i < |blocks| && blocks[i].hash == hash
                       && (forall j | 0 <= j < i :: blocks[j].hash != hash) ::
              BlockWithHash(blocks, hash) == Some(blocks[i])
    decreases |blocks|
  {
    if blocks != [] && blocks[0].hash != hash {
      var rest := blocks[1..];
      BlockWithHashExactly(rest, hash);
      assert blocks == [blocks[0]] + rest;
      forall i | 0 <= i < |blocks| && blocks[i].hash == hash && (forall j | 0 <= j < i :: blocks[j].hash != hash)
        ensures BlockWithHash(blocks, hash) == Some(blocks[i])
      {
        assert rest[i - 1] == blocks[i] && forall j | 0 <= j < i - 1 :: rest[j] == blocks[j + 1];
      }
    }
  }

  /** These are the positions of the blocks with a height in the range. */
  ghost predicate IsStretch(blocks: seq<CachedBlock>, first: nat, last: nat, i: nat, j: nat) {
    && i <= j <= |blocks|
    && forall k | 0 <= k < |blocks| :: first <= blocks[k].height <= last <==> i <= k < j
  }

  lemma StretchExists(blocks: seq<CachedBlock>, first: nat, last: nat) returns (i: nat, j: nat)
    requires Increasing(blocks)
    ensures IsStretch(blocks, first, last, i, j)
  {
    i := 0;
    while i < |blocks| && blocks[i].height < first
      invariant i <= |blocks| && forall k | 0 <= k < i :: blocks[k].height < first
    {
      i := i + 1;
    }
    j := i;
    while j < |blocks| && blocks[j].height <= last
      invariant i <= j <= |blocks| && forall k | i <= k < j :: blocks[k].height <= last
    {
      j := j + 1;
    }
  }

  /** A range gives the messages of just the blocks in it, one stretch of whole blocks in order. */
  lemma RangeIsStretch(blocks: seq<CachedBlock>, first: nat, last: nat) returns (i: nat, j: nat)
    requires Increasing(blocks)
    ensures IsStretch(blocks, first, last, i, j)
    ensures MessagesIn(blocks, first, last) == AllMessages(blocks[i..j])
  {
    i, j := StretchExists(blocks, first, last);
    StretchMessages(blocks, first, last, i, j);
  }

  lemma {:induction false} StretchMessages(blocks: seq<CachedBlock>, first: nat, last: nat, i: nat, j: nat)
    requires IsStretch(blocks, first, last, i, j)
    ensures MessagesIn(blocks, first, last) == AllMessages(blocks[i..j])
    decreases |blocks|
  {
    if blocks != [] {
      var n := |blocks| - 1;
      if i == j {
        StretchMessages(blocks[..n], first, last, 0, 0);
      } else if j == |blocks| {
        StretchMessages(blocks[..n], first, last, i, n);
        assert blocks[..n][i..n] == blocks[i..n];
        LastInStretch(blocks, i);
      } else {
        StretchMessages(blocks[..n], first, last, i, j);
        assert blocks[..n][i..j] == blocks[i..j];
      }
    }
  }

  lemma LastInStretch(blocks: seq<CachedBlock>, i: nat)
    requires i < |blocks|
    ensures AllMessages(blocks[i..]) == AllMessages(blocks[i..|blocks| - 1]) + blocks[|blocks| - 1].messages
    ensures blocks[i..] == blocks[i..|blocks|]
  {
    assert blocks[i..][..|blocks| - 1 - i] == blocks[i..|blocks| - 1];
  }

  /** All messages: of every block, in order. */
  lemma {:induction false} AllMessagesSplit(blocks: seq<CachedBlock>, i: nat)
    requires i < |blocks|
    ensures AllMessages(blocks) == AllMessages(blocks[..i]) + blocks[i].messages + AllMessages(blocks[i + 1..])
    ensures AllMessages([]) == []
  {
    assert blocks == blocks[..i] + [blocks[i]] + blocks[i + 1..];
    AllMessagesConcat(blocks[..i] + [blocks[i]], blocks[i + 1..]);
    AllMessagesConcat(blocks[..i], [blocks[i]]);
    assert [blocks[i]][..0] == [];
  }

  // ---------------------------------------------------------------- the unbounded history

  predicate Increasing(blocks: seq<CachedBlock>) {
    forall i, j | 0 <= i < j < |blocks| :: blocks[i].height < blocks[j].height
  }

  predicate SuffixOf(blocks: seq<CachedBlock>, history: seq<CachedBlock>) {
    |blocks| <= |history| && blocks == history[|history| - |blocks|..]
  }

  lemma IndexOfUnique(blocks: seq<CachedBlock>, i: nat)
    requires Increasing(blocks) && i < |blocks|
    ensures IndexOf(blocks, blocks[i].height) == Some(i)
  {
    var r := IndexOf(blocks, blocks[i].height);
    assert r.Some?;
  }

  lemma AboveCut(history: seq<CachedBlock>, cut: nat, j: nat)
    requires Increasing(history) && cut < |history| && j < |history|
    requires history[cut].height <= history[j].height
    ensures cut <= j && history[j] == history[cut..][j - cut]
  {
  }

  lemma PushSuffix(blocks: seq<CachedBlock>, history: seq<CachedBlock>, b: CachedBlock, capacity: nat)
    requires SuffixOf(blocks, history) && |blocks| <= capacity
    ensures SuffixOf(Push(blocks, b, capacity), history + [b])
    ensures |Push(blocks, b, capacity)| <= capacity
  {
  }

  /** Where the cache reaches, it finds the block the history finds, and rolls back to the same place. */
  lemma SuffixAnswers(blocks: seq<CachedBlock>, history: seq<CachedBlock>, height: nat)
    requires SuffixOf(blocks, history) && Increasing(history)
    requires blocks != [] && blocks[0].height <= height
    ensures BlockAt(blocks, height) == BlockAt(history, height)
    ensures RolledBack(blocks, height).Some? <==> RolledBack(history, height).Some?
    ensures RolledBack(blocks, height).Some? ==>
              SuffixOf(RolledBack(blocks, height).value, RolledBack(history, height).value)
              && RolledBack(blocks, height).value != []
  {
    match IndexOf(blocks, height) {
      case Some(i) =>
        IndexInHistory(blocks, history, height, i);
        SuffixCut(blocks, history, i);
      case None =>
        MissingInHistory(blocks, history, height);
    }
  }

  lemma IndexInHistory(blocks: seq<CachedBlock>, history: seq<CachedBlock>, height: nat, i: nat)
    requires SuffixOf(blocks, history) && Increasing(history) && i < |blocks| && blocks[i].height == height
    ensures IndexOf(history, height) == Some(|history| - |blocks| + i)
  {
    SuffixElement(blocks, history, i);
    IndexIs(history, |history| - |blocks| + i, height);
  }

  lemma SuffixElement(blocks: seq<CachedBlock>, history: seq<CachedBlock>, i: nat)
    requires SuffixOf(blocks, history) && i < |blocks|
    ensures history[|history| - |blocks| + i] == blocks[i]
  {
  }

  lemma IndexIs(blocks: seq<CachedBlock>, i: nat, height: nat)
    requires Increasing(blocks) && i < |blocks| && blocks[i].height == height
    ensures IndexOf(blocks, height) == Some(i)
  {
    IndexOfUnique(blocks, i);
  }

  lemma MissingInHistory(blocks: seq<CachedBlock>, history: seq<CachedBlock>, height: nat)
    requires SuffixOf(blocks, history) && Increasing(history)
    requires blocks != [] && blocks[0].height <= height && IndexOf(blocks, height).None?
    ensures IndexOf(history, height).None?
  {
    var cut := |history| - |blocks|;
    assert forall i | 0 <= i < |blocks| :: blocks[i] == history[cut + i];
    if IndexOf(history, height).Some? {
      AboveCut(history, cut, IndexOf(history, height).value);
      assert false;
    }
  }

  lemma SuffixParts(blocks: seq<CachedBlock>, history: seq<CachedBlock>)
    requires SuffixOf(blocks, history) && Increasing(history)
    ensures Increasing(blocks)
    ensures forall b | b in blocks :: b in history
  {
    assert forall i | 0 <= i < |blocks| :: blocks[i] == history[|history| - |blocks| + i];
  }

  /** A history splits at a cached height: what a rollback keeps, and the blocks above, all cached. */
  lemma HistorySplits(blocks: seq<CachedBlock>, history: seq<CachedBlock>, height: nat)
    returns (kept: seq<CachedBlock>, above: seq<CachedBlock>)
    requires SuffixOf(blocks, history) && Increasing(history) && IndexOf(blocks, height).Some?
    ensures history == kept + above && kept != [] && kept[|kept| - 1].height == height
    ensures RolledBack(history, height) == Some(kept)
    ensures RolledBack(blocks, height).Some? && SuffixOf(RolledBack(blocks, height).value, kept)
    ensures forall b | b in kept :: b.height <= height
    ensures forall b | b in above :: height < b.height && b in blocks
  {
    var i := IndexOf(blocks, height).value;
    var at := |history| - |blocks| + i;
    IndexInHistory(blocks, history, height, i);
    kept, above := SplitAfter(history, at);
    SuffixCut(blocks, history, i);
  }

  lemma SplitAfter(history: seq<CachedBlock>, at: nat) returns (kept: seq<CachedBlock>, above: seq<CachedBlock>)
    requires Increasing(history) && at < |history|
    ensures history == kept + above && kept == history[..at + 1] && above == history[at + 1..]
    ensures kept != [] && kept[|kept| - 1] == history[at]
    ensures forall b | b in kept :: b.height <= history[at].height
    ensures forall b | b in above :: history[at].height < b.height
  {
    kept, above := history[..at + 1], history[at + 1..];
    SplitHeights(history, at);
  }

  lemma SuffixCut(blocks: seq<CachedBlock>, history: seq<CachedBlock>, i: nat)
    requires SuffixOf(blocks, history) && i < |blocks|
    ensures var at := |history| - |blocks| + i;
            SuffixOf(blocks[..i + 1], history[..at + 1]) && history[at + 1..] == blocks[i + 1..]
  {
  }

  lemma SplitHeights(history: seq<CachedBlock>, at: nat)
    requires Increasing(history) && at < |history|
    ensures forall b | b in history[..at + 1] :: b.height <= history[at].height
    ensures forall b | b in history[at + 1..] :: history[at].height < b.height
  {
  }

  lemma {:induction false} MessagesInSuffix(
      blocks: seq<CachedBlock>, history: seq<CachedBlock>, first: nat, last: nat)
    requires SuffixOf(blocks, history) && Increasing(history)
    requires blocks == [] ==> forall b | b in history :: b.height < first
    requires blocks != [] ==> blocks[0].height <= first
    ensures MessagesIn(blocks, first, last) == MessagesIn(history, first, last)
    decreases |history|
  {
    if history != [] {
      var n := |history| - 1;
      if blocks == [] {
        assert history[n] in history;
        assert forall b | b in history[..n] :: b in history;
        MessagesInSuffix([], history[..n], first, last);
      } else {
        SuffixInit(blocks, history);
        MessagesInSuffix(blocks[..|blocks| - 1], history[..n], first, last);
      }
    }
  }

  lemma SuffixInit(blocks: seq<CachedBlock>, history: seq<CachedBlock>)
    requires SuffixOf(blocks, history) && Increasing(history) && blocks != []
    ensures SuffixOf(blocks[..|blocks| - 1], history[..|history| - 1])
    ensures blocks[|blocks| - 1] == history[|history| - 1] && Increasing(history[..|history| - 1])
    ensures |blocks| == 1 ==> forall b | b in history[..|history| - 1] :: b.height < blocks[0].height
    ensures |blocks| > 1 ==> blocks[..|blocks| - 1][0] == blocks[0]
  {
    assert blocks[|blocks| - 1] == history[|history| - 1];
  }

  lemma {:induction false} AncestorSuffix(
      blocks: seq<CachedBlock>, history: seq<CachedBlock>, hashes: seq<(nat, Hash)>)
    requires SuffixOf(blocks, history) && Increasing(history) && blocks != []
    ensures CommonAncestor(history, hashes).Some? && blocks[0].height <= CommonAncestor(history, hashes).value
            ==> CommonAncestor(blocks, hashes) == CommonAncestor(history, hashes)
    ensures CommonAncestor(blocks, hashes).Some?
            ==> CommonAncestor(history, hashes) == CommonAncestor(blocks, hashes)
  {
    BestCommonAncestor(blocks, hashes);
    BestCommonAncestor(history, hashes);
    forall k | blocks[0].height <= k
      ensures Matches(blocks, hashes, k) <==> Matches(history, hashes, k)
    {
      SuffixAnswers(blocks, history, k);
    }
    forall k | Matches(blocks, hashes, k)
      ensures blocks[0].height <= k
    {
      var i := IndexOf(blocks, k).value;
      var cut := |history| - |blocks|;
      assert blocks[i] == history[cut + i] && blocks[0] == history[cut];
    }
  }

  lemma {:induction false} HashSuffix(blocks: seq<CachedBlock>, history: seq<CachedBlock>, hash: Hash)
    requires SuffixOf(blocks, history) && Increasing(history)
    ensures BlockWithHash(history, hash).None? ==> BlockWithHash(blocks, hash).None?
    ensures BlockWithHash(history, hash).Some? && BlockWithHash(history, hash).value in blocks
            ==> BlockWithHash(blocks, hash) == BlockWithHash(history, hash)
    decreases |history|
  {
    if |blocks| == |history| {
      assert blocks == history;
    } else {
      var rest := history[1..];
      assert blocks == rest[|rest| - |blocks|..];
      assert history == [history[0]] + rest;
      HashSuffix(blocks, rest, hash);
    }
  }

  // ---------------------------------------------------------------- whole runs of the cache

  datatype CacheOp = Add(block: CachedBlock) | RollBackTo(height: nat) | Clear

  function CacheStep(capacity: nat, blocks: seq<CachedBlock>, op: CacheOp): seq<CachedBlock> {
    match op
    case Add(b) => Push(blocks, b, capacity)
    case RollBackTo(h) => (match RolledBack(blocks, h) case Some(kept) => kept case None => blocks)
    case Clear => []
  }

  /** The same operation without eviction; a rollback the cache refuses happens on neither side. */
  function HistoryStep(history: seq<CachedBlock>, blocks: seq<CachedBlock>, op: CacheOp): seq<CachedBlock> {
    match op
    case Add(b) => history + [b]
    case RollBackTo(h) =>
      if RolledBack(blocks, h).None? then history
      else (match RolledBack(history, h) case Some(kept) => kept case None => history)
    case Clear => []
  }

  function Cached(capacity: nat, ops: seq<CacheOp>): seq<CachedBlock> {
    if ops == [] then [] else CacheStep(capacity, Cached(capacity, ops[..|ops| - 1]), ops[|ops| - 1])
  }

  function History(capacity: nat, ops: seq<CacheOp>): seq<CachedBlock> {
    if ops == [] then []
    else
      var before := ops[..|ops| - 1];
      HistoryStep(History(capacity, before), Cached(capacity, before), ops[|ops| - 1])
  }

  /** Blocks are only ever added above everything the history holds. */
  ghost predicate AddsIncrease(capacity: nat, ops: seq<CacheOp>) {
    forall i | 0 <= i < |ops| && ops[i].Add? ::
      forall b | b in History(capacity, ops[..i]) :: b.height < ops[i].block.height
  }

  /** After any run, the cache is the end of the unbounded history and no longer than its bound. */
  lemma {:induction false} CacheSimulatesHistory(capacity: nat, ops: seq<CacheOp>)
    requires capacity > 0 && AddsIncrease(capacity, ops)
    ensures SuffixOf(Cached(capacity, ops), History(capacity, ops))
    ensures |Cached(capacity, ops)| <= capacity
    ensures Increasing(History(capacity, ops))
    decreases |ops|
  {
    if ops != [] {
      var n := |ops| - 1;
      var before := ops[..n];
      assert forall i | 0 <= i < n :: ops[..i] == before[..i];
      CacheSimulatesHistory(capacity, before);
      StepSimulates(capacity, Cached(capacity, before), History(capacity, before), ops[n]);
    }
  }

  lemma StepSimulates(capacity: nat, blocks: seq<CachedBlock>, history: seq<CachedBlock>, op: CacheOp)
    requires SuffixOf(blocks, history) && |blocks| <= capacity && Increasing(history)
    requires op.Add? ==> forall b | b in history :: b.height < op.block.height
    ensures SuffixOf(CacheStep(capacity, blocks, op), HistoryStep(history, blocks, op))
    ensures |CacheStep(capacity, blocks, op)| <= capacity
    ensures Increasing(HistoryStep(history, blocks, op))
  {
    match op {
      case Add(b) => PushSuffix(blocks, history, b, capacity);
      case RollBackTo(h) =>
        if IndexOf(blocks, h).Some? {
          RollbackSimulates(blocks, history, h);
        }
      case Clear =>
    }
  }

  lemma RollbackSimulates(blocks: seq<CachedBlock>, history: seq<CachedBlock>, height: nat)
    requires SuffixOf(blocks, history) && Increasing(history) && IndexOf(blocks, height).Some?
    ensures RolledBack(blocks, height).Some? && RolledBack(history, height).Some?
    ensures SuffixOf(RolledBack(blocks, height).value, RolledBack(history, height).value)
    ensures |RolledBack(blocks, height).value| <= |blocks|
    ensures Increasing(RolledBack(history, height).value)
  {
    var i := IndexOf(blocks, height).value;
    var at := |history| - |blocks| + i;
    assert history[at] == blocks[i];
    IndexOfUnique(history, at);
    SuffixCut(blocks, history, i);
  }

  lemma RolledBackParts(history: seq<CachedBlock>, height: nat)
    requires Increasing(history) && RolledBack(history, height).Some?
    ensures forall b | b in RolledBack(history, height).value :: b in history && b.height <= height
  {
    SplitHeights(history, IndexOf(history, height).value);
  }

  /** Everything asked at or above the lowest cached height is answered as the history answers it. */
  lemma CacheAnswersAsHistory(
      capacity: nat, ops: seq<CacheOp>, height: nat, last: nat, hashes: seq<(nat, Hash)>)
    requires capacity > 0 && AddsIncrease(capacity, ops)
    requires Cached(capacity, ops) != [] && Cached(capacity, ops)[0].height <= height
    ensures BlockAt(Cached(capacity, ops), height) == BlockAt(History(capacity, ops), height)
    ensures MessagesIn(Cached(capacity, ops), height, last) == MessagesIn(History(capacity, ops), height, last)
    ensures CommonAncestor(Cached(capacity, ops), hashes) == Some(height)
            <==> CommonAncestor(History(capacity, ops), hashes) == Some(height)
    ensures var mine, full := RolledBack(Cached(capacity, ops), height), RolledBack(History(capacity, ops), height);
            (mine.Some? <==> full.Some?) && (mine.Some? ==> SuffixOf(mine.value, full.value))
  {
    CacheSimulatesHistory(capacity, ops);
    var blocks, history := Cached(capacity, ops), History(capacity, ops);
    SuffixAnswers(blocks, history, height);
    MessagesInSuffix(blocks, history, height, last);
    AncestorSuffix(blocks, history, hashes);
  }

  /** A range of heights splits anywhere. */
  lemma {:induction false} RangeSplits(blocks: seq<CachedBlock>, first: nat, mid: nat, last: nat)
    requires Increasing(blocks) && first <= mid <= last
    ensures MessagesIn(blocks, first, last) == MessagesIn(blocks, first, mid) + MessagesIn(blocks, mid + 1, last)
    decreases |blocks|
  {
    if blocks != [] {
      var init, b := blocks[..|blocks| - 1], blocks[|blocks| - 1];
      RangeSplits(init, first, mid, last);
      var low, high := MessagesIn(init, first, mid), MessagesIn(init, mid + 1, last);
      if b.height <= mid {
        assert forall x | x in init :: x.height < mid + 1;
        NoneInRange(init, mid + 1, last);
      }
      OneMoreInRange(low, high, b, first, mid, last);
    }
  }

  lemma OneMoreInRange(low: seq<Message>, high: seq<Message>, b: CachedBlock, first: nat, mid: nat, last: nat)
    requires first <= mid <= last && (b.height <= mid ==> high == [])
    ensures low + high + (if first <= b.height <= last then b.messages else [])
            == (low + if first <= b.height <= mid then b.messages else [])
               + (high + if mid + 1 <= b.height <= last then b.messages else [])
  {
  }

  lemma {:induction false} NoneInRange(blocks: seq<CachedBlock>, first: nat, last: nat)
    requires forall b | b in blocks :: b.height < first
    ensures MessagesIn(blocks, first, last) == []
    decreases |blocks|
  {
    if blocks != [] {
      var n := |blocks| - 1;
      assert blocks[n] in blocks;
      assert forall b | b in blocks[..n] :: b in blocks;
      NoneInRange(blocks[..n], first, last);
    }
  }

  // ---------------------------------------------------------------- the cache object

  class BlockCache {
    const maxSize: nat
    var blocks: seq<CachedBlock>

    constructor (maxSize: nat)
      requires maxSize > 0
      ensures this.maxSize == maxSize && blocks == []
    {
      this.maxSize := maxSize;
      blocks := [];
    }

    static method New(maxSize: nat) returns (r: Result<BlockCache, Error>)
      ensures r.Failure? <==> maxSize == 0
      ensures r.Failure? ==> r.error == CacheSizeZero
      ensures r.Success? ==> fresh(r.value) && r.value.maxSize == maxSize && r.value.blocks == []
    {
      if maxSize == 0 {
        return Failure(CacheSizeZero);
      }
      var cache := new BlockCache(maxSize);
      return Success(cache);
    }

    method AddBlock(block: CachedBlock)
      modifies this
      ensures blocks == Push(old(blocks), block, maxSize)
      ensures |old(blocks)| < maxSize ==> blocks == old(blocks) + [block]
      ensures |old(blocks)| == maxSize > 0 ==> blocks == old(blocks)[1..] + [block]
      ensures blocks == CacheStep(maxSize, old(blocks), Add(block))
    {
      blocks := blocks + [block];
      if |blocks| > maxSize {
        blocks := blocks[1..];
      }
    }

    function GetBlockAtHeight(height: nat): Option<CachedBlock>
      reads this
    {
      BlockAt(blocks, height)
    }

    function GetBlockHash(height: nat): Option<Hash>
      reads this
    {
      HashAt(blocks, height)
    }

    method FindCommonAncestor(newHashes: seq<(nat, Hash)>) returns (r: Option<nat>)
      ensures r == CommonAncestor(blocks, newHashes)
      ensures r.None? <==> forall k: nat :: !Matches(blocks, newHashes, k)
      ensures r.Some? ==> Matches(blocks, newHashes, r.value)
                          && forall k: nat :: Matches(blocks, newHashes, k) ==> k <= r.value
    {
      BestCommonAncestor(blocks, newHashes);
      var sorted := SortDescending(newHashes);
      for i := 0 to |sorted|
        invariant FirstMatch(blocks, sorted) == FirstMatch(blocks, sorted[i..])
      {
        if GetBlockHash(sorted[i].0) == Some(sorted[i].1) {
          return Some(sorted[i].0);
        }
        assert sorted[i..][1..] == sorted[i + 1..];
      }
      return None;
    }

    method RollBack(height: nat) returns (r: Result<TransformState, Error>)
      modifies this
      ensures r.Success? <==> RolledBack(old(blocks), height).Some?
      ensures r.Success? ==> Some(blocks) == RolledBack(old(blocks), height)
                             && blocks != [] && r.value == blocks[|blocks| - 1].snapshot
      ensures r.Failure? ==> blocks == old(blocks) && r.error == NotInCache(height)
      ensures blocks == CacheStep(maxSize, old(blocks), RollBackTo(height))
    {
      match IndexOf(blocks, height) {
        case None =>
          return Failure(NotInCache(height));
        case Some(index) =>
          blocks := blocks[..index + 1];
          return Success(blocks[index].snapshot);
      }
    }

    method GetAllCdcMessages() returns (messages: seq<Message>)
      ensures messages == AllMessages(blocks)
    {
      messages := [];
      for i := 0 to |blocks|
        invariant messages == AllMessages(blocks[..i])
      {
        assert blocks[..i + 1][..i] == blocks[..i];
        messages := messages + blocks[i].messages;
      }
      assert blocks[..|blocks|] == blocks;
    }

    method GetCdcMessagesRange(startHeight: nat, endHeight: nat) returns (messages: seq<Message>)
      ensures messages == MessagesIn(blocks, startHeight, endHeight)
    {
      messages := [];
      for i := 0 to |blocks|
        invariant messages == MessagesIn(blocks[..i], startHeight, endHeight)
      {
        assert blocks[..i + 1][..i] == blocks[..i];
        var height := blocks[i].height;
        if height >= startHeight && height <= endHeight {
          messages := messages + blocks[i].messages;
        }
      }
      assert blocks[..|blocks|] == blocks;
    }

    method Clear()
      modifies this
      ensures blocks == [] == CacheStep(maxSize, old(blocks), CacheOp.Clear)
    {
      blocks := [];
    }
  }
}
