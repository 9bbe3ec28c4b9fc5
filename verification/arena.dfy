/**
 * The block arena: blocks stored contiguously in creation order, addressed by
 * `id - base`. Pruning replaces the whole arena by its single newest common
 * block; appending is the only other write.
 */
module BlockArena {

  /** A block never changes once appended. The genesis block has parent 0 and no miner. */
  datatype Block = Block(parent: int, height: int, miner: int)

  /** `blocks[0]` has id `base`, `blocks[i]` has id `base + i`. */
  datatype Arena = Arena(base: int, blocks: seq<Block>)

  /** Id given to the genesis block; arbitrary, but keeps ids apart from heights. */
  const GenesisId: int := 1000

  /** Miner recorded on the genesis block, which nobody mined. */
  const NoMiner: int := -1

  /** The arena holding only the genesis block, at height zero. */
  function Genesis(): (a: Arena)
    ensures WellFormed(a) && |a.blocks| == 1
    ensures a.base == GenesisId && ValidBlock(a, GenesisId) && BaseHeight(a) == 0
    ensures forall bid :: ValidBlock(a, bid) <==> bid == GenesisId
  {
    Arena(GenesisId, [Block(0, 0, NoMiner)])
  }

  /** The id still resolves: it is neither pruned nor beyond the newest block. */
  predicate ValidBlock(a: Arena, bid: int)
  {
    bid >= a.base && bid - a.base < |a.blocks|
  }

  function GetBlock(a: Arena, bid: int): Block
    requires ValidBlock(a, bid)
  {
    a.blocks[bid - a.base]
  }

  function GetHeight(a: Arena, bid: int): int
    requires ValidBlock(a, bid)
  {
    GetBlock(a, bid).height
  }

  function Parent(a: Arena, bid: int): int
    requires ValidBlock(a, bid)
  {
    GetBlock(a, bid).parent
  }

  /** Height of the oldest retained block. */
  function BaseHeight(a: Arena): int
    requires |a.blocks| > 0
  {
    a.blocks[0].height
  }

  /** The id the next appended block receives. */
  function NextId(a: Arena): int
  {
    a.base + |a.blocks|
  }

  /** Block `i` (not the base) points at an older retained block one level lower. */
  predicate LinkedAt(a: Arena, i: int)
    requires 0 < i < |a.blocks|
  {
    var b := a.blocks[i];
    a.base <= b.parent < a.base + i &&
    b.height == a.blocks[b.parent - a.base].height + 1
  }

  /** Every retained block except the base is the child of an older retained block. */
  predicate WellFormed(a: Arena)
  {
    |a.blocks| > 0 &&
    forall i :: 0 < i < |a.blocks| ==> LinkedAt(a, i)
  }

  /**
   * Appending keeps every existing id valid and bound to the same block, makes
   * exactly one new id valid, and keeps the arena well formed when the new
   * block is a child of a retained block one level higher.
   */
  function Append(a: Arena, b: Block): (r: Arena)
    ensures r.base == a.base && |r.blocks| == |a.blocks| + 1
    ensures ValidBlock(r, NextId(a)) && GetBlock(r, NextId(a)) == b
    ensures forall bid :: ValidBlock(r, bid) <==> ValidBlock(a, bid) || bid == NextId(a)
    ensures forall bid :: ValidBlock(a, bid) ==> GetBlock(r, bid) == GetBlock(a, bid)
    ensures WellFormed(a) && ValidBlock(a, b.parent) && b.height == GetHeight(a, b.parent) + 1
            ==> WellFormed(r) && BaseHeight(r) == BaseHeight(a)
  {
    AppendKeepsLinks(a, b);
    Arena(a.base, a.blocks + [b])
  }

  lemma AppendKeepsLinks(a: Arena, b: Block)
    ensures WellFormed(a) && ValidBlock(a, b.parent) && b.height == GetHeight(a, b.parent) + 1
            ==> WellFormed(Arena(a.base, a.blocks + [b]))
  {
    var r := Arena(a.base, a.blocks + [b]);
    if WellFormed(a) && ValidBlock(a, b.parent) && b.height == GetHeight(a, b.parent) + 1 {
      forall i | 0 < i < |r.blocks|
        ensures LinkedAt(r, i)
      {
        if i < |a.blocks| {
          assert LinkedAt(a, i);
          assert r.blocks[a.blocks[i].parent - a.base] == a.blocks[a.blocks[i].parent - a.base];
        }
      }
    }
  }

  /** The arena after pruning down to block `bid`, which becomes the new base. */
  function Truncate(a: Arena, bid: int): (r: Arena)
    requires ValidBlock(a, bid)
    ensures WellFormed(r) && r.base == bid && |r.blocks| == 1
    ensures forall x :: ValidBlock(r, x) <==> x == bid
    ensures GetBlock(r, bid) == GetBlock(a, bid) && BaseHeight(r) == GetHeight(a, bid)
  {
    Arena(bid, [GetBlock(a, bid)])
  }

  /** Heights grow along parent links, so no retained block is below the base. */
  lemma {:induction false} AboveBase(a: Arena, bid: int)
    requires WellFormed(a) && ValidBlock(a, bid)
    ensures GetHeight(a, bid) >= BaseHeight(a)
    ensures bid != a.base ==> GetHeight(a, bid) > BaseHeight(a)
    decreases bid - a.base
  {
    if bid != a.base {
      assert LinkedAt(a, bid - a.base);
      AboveBase(a, Parent(a, bid));
    }
  }

  /** The ancestor of `bid` at height `h`, found by following parent links downward. */
  function AncestorAt(a: Arena, bid: int, h: int): (r: int)
    requires WellFormed(a) && ValidBlock(a, bid)
    requires BaseHeight(a) <= h <= GetHeight(a, bid)
    ensures ValidBlock(a, r) && GetHeight(a, r) == h && r <= bid
    decreases bid - a.base
  {
    if GetHeight(a, bid) == h then bid
    else
      assert LinkedAt(a, bid - a.base);
      AncestorAt(a, Parent(a, bid), h)
  }

  /** `x` lies on the chain from `y` down to the base (every block is its own ancestor). */
  predicate IsAncestor(a: Arena, x: int, y: int)
  {
    WellFormed(a) && ValidBlock(a, x) && ValidBlock(a, y) &&
    BaseHeight(a) <= GetHeight(a, x) <= GetHeight(a, y) &&
    AncestorAt(a, y, GetHeight(a, x)) == x
  }

  /** Walking down to `h2` is the same as walking down to `h1` first, then to `h2`. */
  lemma {:induction false} AncestorCompose(a: Arena, bid: int, h1: int, h2: int)
    requires WellFormed(a) && ValidBlock(a, bid)
    requires BaseHeight(a) <= h2 <= h1 <= GetHeight(a, bid)
    ensures AncestorAt(a, AncestorAt(a, bid, h1), h2) == AncestorAt(a, bid, h2)
    decreases bid - a.base
  {
    if GetHeight(a, bid) != h1 {
      assert LinkedAt(a, bid - a.base);
      AncestorCompose(a, Parent(a, bid), h1, h2);
    }
  }

  /**
   * Walks two same-height blocks down in lockstep until they meet; the result
   * is the number of steps taken. Below the meeting height the two chains
   * coincide, above it (up to the start) they differ at every height.
   */
  function StepsToMeet(a: Arena, c: int, t: int): (r: nat)
    requires WellFormed(a) && ValidBlock(a, c) && ValidBlock(a, t)
    requires GetHeight(a, c) == GetHeight(a, t)
    ensures r <= GetHeight(a, c) - BaseHeight(a)
    ensures AncestorAt(a, c, GetHeight(a, c) - r) == AncestorAt(a, t, GetHeight(a, c) - r)
    ensures forall h :: GetHeight(a, c) - r < h <= GetHeight(a, c) ==>
              AncestorAt(a, c, h) != AncestorAt(a, t, h)
    decreases c - a.base
  {
    AboveBase(a, c);
    AboveBase(a, t);
    if c == t then 0
    else
      assert LinkedAt(a, c - a.base) && LinkedAt(a, t - a.base);
      1 + StepsToMeet(a, Parent(a, c), Parent(a, t))
  }

  /**
   * Reorg depth when switching from tip `cur` to the not-lower block `to`: walk
   * `to` down to the height of `cur`, then count lockstep steps until the two
   * branches meet. It is the number of blocks of the old branch above the
   * deepest common ancestor.
   */
  function ReorgDepth(a: Arena, cur: int, to: int): (r: nat)
    requires WellFormed(a) && ValidBlock(a, cur) && ValidBlock(a, to)
    requires GetHeight(a, cur) <= GetHeight(a, to)
    ensures r <= GetHeight(a, cur) - BaseHeight(a)
    ensures IsAncestor(a, AncestorAt(a, cur, GetHeight(a, cur) - r), to)
    ensures forall h :: GetHeight(a, cur) - r < h <= GetHeight(a, cur) ==>
              !IsAncestor(a, AncestorAt(a, cur, h), to)
    ensures r == 0 <==> IsAncestor(a, cur, to)
  {
    AboveBase(a, cur);
    var t := AncestorAt(a, to, GetHeight(a, cur));
    var r := StepsToMeet(a, cur, t);
    AncestorCompose(a, to, GetHeight(a, cur), GetHeight(a, cur) - r);
    forall h | GetHeight(a, cur) - r < h <= GetHeight(a, cur)
      ensures !IsAncestor(a, AncestorAt(a, cur, h), to)
    {
      AncestorCompose(a, to, GetHeight(a, cur), h);
    }
    r
  }

  /**
   * A one-block fork: blocks 1001 and 1002 are both children of genesis and
   * 1003 extends 1002. Switching from 1001 to 1003 reorgs one block away;
   * switching from 1002 to 1003 reorgs nothing.
   */
  lemma ForkOfDepthOne()
    ensures var a := Arena(GenesisId, [Block(0, 0, NoMiner), Block(1000, 1, 0), Block(1000, 1, 1), Block(1002, 2, 1)]);
            WellFormed(a) && ReorgDepth(a, 1001, 1003) == 1 && ReorgDepth(a, 1002, 1003) == 0
  {
    var a := Arena(GenesisId, [Block(0, 0, NoMiner), Block(1000, 1, 0), Block(1000, 1, 1), Block(1002, 2, 1)]);
    assert LinkedAt(a, 1) && LinkedAt(a, 2) && LinkedAt(a, 3);
    assert AncestorAt(a, 1003, 1) == 1002;
    assert StepsToMeet(a, 1000, 1000) == 0;
    assert StepsToMeet(a, 1001, 1002) == 1;
    assert StepsToMeet(a, 1002, 1002) == 0;
  }
}
