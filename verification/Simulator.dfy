/** The in-memory chain simulator. */
module Simulators {
  import opened Wrappers
  import opened BlockCaching

  /** The two ways the simulator derives a hash; neither looks at the block below. */
  datatype Hasher = Hasher(advanced: (nat, Option<string>) -> Hash, forked: (nat, string, nat) -> Hash)

  datatype Chain = Chain(height: nat, hashes: map<nat, Hash>)

  function Advanced(c: Chain, data: Option<string>, hasher: Hasher): Chain {
    Chain(c.height + 1, c.hashes[c.height + 1 := hasher.advanced(c.height + 1, data)])
  }

  function Extended(hashes: map<nat, Hash>, fork: nat, blocks: seq<string>, hasher: Hasher): map<nat, Hash> {
    if blocks == [] then hashes
    else
      var n := |blocks| - 1;
      Extended(hashes, fork, blocks[..n], hasher)[fork + n + 1 := hasher.forked(fork + n + 1, blocks[n], n)]
  }

  function UpTo(hashes: map<nat, Hash>, fork: nat): map<nat, Hash> {
    map h | h in hashes && h <= fork :: hashes[h]
  }

  function Forked(c: Chain, fork: nat, blocks: seq<string>, hasher: Hasher): Option<Chain> {
    if fork > c.height then None
    else Some(Chain(fork + |blocks|, Extended(UpTo(c.hashes, fork), fork, blocks, hasher)))
  }

  datatype Move = Advance(data: Option<string>) | Reorganize(fork: nat, blocks: seq<string>)

  function After(moves: seq<Move>, hasher: Hasher): Chain {
    if moves == [] then Chain(0, map[])
    else
      var c := After(moves[..|moves| - 1], hasher);
      match moves[|moves| - 1]
      case Advance(data) => Advanced(c, data, hasher)
      case Reorganize(fork, blocks) => OrElse(Forked(c, fork, blocks, hasher), c)
  }

  lemma {:induction false} ExtendedShape(hashes: map<nat, Hash>, fork: nat, blocks: seq<string>, hasher: Hasher)
    ensures var r := Extended(hashes, fork, blocks, hasher);
            && (forall h: nat :: h in r <==> h in hashes || fork < h <= fork + |blocks|)
            && (forall h | h in hashes && (h <= fork || fork + |blocks| < h) :: r[h] == hashes[h])
            && (forall i: nat | i < |blocks| :: r[fork + i + 1] == hasher.forked(fork + i + 1, blocks[i], i))
    decreases |blocks|
  {
    if blocks != [] {
      var n := |blocks| - 1;
      ExtendedShape(hashes, fork, blocks[..n], hasher);
      assert forall i: nat | i < n :: blocks[..n][i] == blocks[i];
    }
  }

  /** Hashes are stored for just the heights 1 to the current one. */
  ghost predicate Shaped(c: Chain) {
    forall h: nat :: h in c.hashes <==> 1 <= h <= c.height
  }

  lemma AdvancedShape(c: Chain, data: Option<string>, hasher: Hasher)
    requires Shaped(c)
    ensures Shaped(Advanced(c, data, hasher))
  {
  }

  lemma ForkedShape(c: Chain, fork: nat, blocks: seq<string>, hasher: Hasher)
    requires Shaped(c) && fork <= c.height
    ensures Shaped(Forked(c, fork, blocks, hasher).value)
  {
    ExtendedShape(UpTo(c.hashes, fork), fork, blocks, hasher);
  }

  /** Every run of moves from a fresh simulator keeps that shape. */
  lemma {:induction false} ChainShape(moves: seq<Move>, hasher: Hasher)
    ensures Shaped(After(moves, hasher))
    decreases |moves|
  {
    if moves != [] {
      ChainShape(moves[..|moves| - 1], hasher);
      var c := After(moves[..|moves| - 1], hasher);
      match moves[|moves| - 1] {
        case Advance(data) => AdvancedShape(c, data, hasher);
        case Reorganize(fork, blocks) =>
          if fork <= c.height {
            ForkedShape(c, fork, blocks, hasher);
          }
      }
    }
  }

  /** Up to the fork the old hashes, then the new blocks' hashes in order, each from its height, data and position,
      and nothing else. */
  predicate IsForked(
      after: map<nat, Hash>, before: map<nat, Hash>, fork: nat, blocks: seq<string>, hasher: Hasher)
  {
    && (forall h | h in after :: (h <= fork && h in before) || fork < h <= fork + |blocks|)
    && (forall h | h in before && h <= fork :: h in after && after[h] == before[h])
    && (forall i | 0 <= i < |blocks| ::
          fork + i + 1 in after && after[fork + i + 1] == hasher.forked(fork + i + 1, blocks[i], i))
  }

  lemma ForkedHashes(c: Chain, fork: nat, blocks: seq<string>, hasher: Hasher)
    requires fork <= c.height
    ensures IsForked(Forked(c, fork, blocks, hasher).value.hashes, c.hashes, fork, blocks, hasher)
  {
    ExtendedShape(UpTo(c.hashes, fork), fork, blocks, hasher);
  }

  /** A reorg keeps the hashes up to the fork and ends that many blocks above it. */
  lemma ForkKeepsBelow(c: Chain, fork: nat, blocks: seq<string>, hasher: Hasher)
    requires fork <= c.height
    ensures var r := Forked(c, fork, blocks, hasher).value;
            r.height == fork + |blocks|
            && forall h | h in c.hashes && h <= fork :: h in r.hashes && r.hashes[h] == c.hashes[h]
  {
    ExtendedShape(UpTo(c.hashes, fork), fork, blocks, hasher);
  }

  /** The simulator's hashes do not fix the hashes below them: two forks that differ in their first block
      agree on the second, so a common hash does not mean a common chain. */
  lemma HashesAreNotLinked(c: Chain, fork: nat, a: string, b: string, top: string, hasher: Hasher)
    requires fork <= c.height && hasher.forked(fork + 1, a, 0) != hasher.forked(fork + 1, b, 0)
    ensures var x, y := Forked(c, fork, [a, top], hasher).value.hashes, Forked(c, fork, [b, top], hasher).value.hashes;
            && fork + 1 in x && fork + 1 in y && x[fork + 1] != y[fork + 1]
            && fork + 2 in x && fork + 2 in y && x[fork + 2] == y[fork + 2]
  {
    var kept := UpTo(c.hashes, fork);
    ExtendedShape(kept, fork, [a, top], hasher);
    ExtendedShape(kept, fork, [b, top], hasher);
    assert [a, top][0] == a && [b, top][0] == b && [a, top][1] == [b, top][1] == top;
    var x, y := Extended(kept, fork, [a, top], hasher), Extended(kept, fork, [b, top], hasher);
    assert x[fork + 0 + 1] == hasher.forked(fork + 1, a, 0) && y[fork + 0 + 1] == hasher.forked(fork + 1, b, 0);
    assert x[fork + 1 + 1] == hasher.forked(fork + 2, top, 1) && y[fork + 1 + 1] == hasher.forked(fork + 2, top, 1);
  }

  class AdapterState {
    var height: nat
    var blockHashes: map<nat, Hash>

    function Model(): Chain
      reads this
    {
      Chain(height, blockHashes)
    }

    constructor ()
      ensures Model() == Chain(0, map[])
    {
      height, blockHashes := 0, map[];
    }

    method AdvanceBlock(data: Option<string>, hasher: Hasher) returns (newHeight: nat, hash: Hash)
      modifies this
      ensures Model() == Advanced(old(Model()), data, hasher)
      ensures newHeight == height == old(height) + 1
      ensures hash == hasher.advanced(newHeight, data) && blockHashes == old(blockHashes)[newHeight := hash]
    {
      newHeight := height + 1;
      hash := hasher.advanced(newHeight, data);
      height := newHeight;
      blockHashes := blockHashes[newHeight := hash];
    }

    /** A rejected reorg changes nothing. */
    method SimulateReorg(forkHeight: nat, newBlocks: seq<string>, hasher: Hasher) returns (r: Option<(nat, Hash)>)
      modifies this
      ensures r.None? <==> old(height) < forkHeight
      ensures r.None? ==> Model() == old(Model())
      ensures r.Some? ==> Forked(old(Model()), forkHeight, newBlocks, hasher) == Some(Model())
      ensures r.Some? ==> r.value.0 == height == forkHeight + |newBlocks|
      ensures r.Some? && newBlocks != [] ==> height in blockHashes && r.value.1 == blockHashes[height]
      ensures r.Some? && newBlocks == [] ==> r.value.1 == ""
    {
      if forkHeight > height {
        return None;
      }
      blockHashes := map h | h in blockHashes && h <= forkHeight :: blockHashes[h];
      ghost var kept := blockHashes;
      var currentHeight := forkHeight;
      var lastHash: Hash := "";
      for i := 0 to |newBlocks|
        invariant currentHeight == forkHeight + i
        invariant blockHashes == Extended(kept, forkHeight, newBlocks[..i], hasher)
        invariant i == 0 ==> lastHash == ""
        invariant i > 0 ==> currentHeight in blockHashes && lastHash == blockHashes[currentHeight]
      {
        assert newBlocks[..i + 1][..i] == newBlocks[..i];
        currentHeight := currentHeight + 1;
        lastHash := hasher.forked(currentHeight, newBlocks[i], i);
        blockHashes := blockHashes[currentHeight := lastHash];
      }
      assert newBlocks[..|newBlocks|] == newBlocks;
      height := currentHeight;
      return Some((currentHeight, lastHash));
    }
  }
}
