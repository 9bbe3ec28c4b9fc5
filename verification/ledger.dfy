/**
 * Miners and their counters: how many blocks each has mined and how many of
 * them were credited, that is, became part of the chain every miner agrees on.
 * Credit is handed out only by the walk that runs when the arena is pruned.
 */
module Ledger {
  import opened BlockArena

  /** An outbound relay link: blocks are forwarded to `miner` after `delay`. */
  datatype Peer = Peer(miner: int, delay: real)

  /** A miner: its outbound peers, the block it mines on, and its two counters. */
  datatype Miner = Miner(peers: seq<Peer>, tip: int, mined: int, credit: int)

  /** The block each miner is currently mining on, in miner order. */
  function Tips(ms: seq<Miner>): (r: seq<int>)
    ensures |r| == |ms| && forall i :: 0 <= i < |ms| ==> r[i] == ms[i].tip
  {
    seq(|ms|, i requires 0 <= i < |ms| => ms[i].tip)
  }

  /** Sum of all miners' credit counters. */
  function TotalCredit(ms: seq<Miner>): int
  {
    if |ms| == 0 then 0 else TotalCredit(ms[..|ms| - 1]) + ms[|ms| - 1].credit
  }

  /** Replacing one miner changes the total credit by the change in its counter. */
  lemma {:induction false} TotalCreditUpdate(ms: seq<Miner>, i: int, m: Miner)
    requires 0 <= i < |ms|
    ensures TotalCredit(ms[i := m]) == TotalCredit(ms) - ms[i].credit + m.credit
    decreases |ms|
  {
    var last := |ms| - 1;
    assert ms[i := m][..last] == if i == last then ms[..last] else ms[..last][i := m];
    if i < last {
      TotalCreditUpdate(ms[..last], i, m);
    }
  }

  /** From `before` to `after` no miner's credit or mined count goes down. */
  predicate CountersGrow(before: seq<Miner>, after: seq<Miner>)
  {
    |before| == |after| &&
    forall mi :: 0 <= mi < |before| ==>
      before[mi].credit <= after[mi].credit && before[mi].mined <= after[mi].mined
  }

  lemma CountersGrowTrans(a: seq<Miner>, b: seq<Miner>, c: seq<Miner>)
    requires CountersGrow(a, b) && CountersGrow(b, c)
    ensures CountersGrow(a, c)
  {
  }

  /** When no miner's credit goes down, neither does the total. */
  lemma {:induction false} CountersGrowTotal(before: seq<Miner>, after: seq<Miner>)
    requires CountersGrow(before, after)
    ensures TotalCredit(before) <= TotalCredit(after)
    decreases |before|
  {
    if |before| > 0 {
      var n := |before| - 1;
      CountersGrowTotal(before[..n], after[..n]);
    }
  }

  /** Every retained block other than the base names a miner that exists. */
  predicate MinersKnown(a: Arena, n: int)
  {
    forall i :: 0 < i < |a.blocks| ==> 0 <= a.blocks[i].miner < n
  }

  /** Appending a block by an existing miner keeps every retained block's miner known. */
  lemma MinersKnownAppend(a: Arena, b: Block, n: int)
    requires MinersKnown(a, n) && 0 <= b.miner < n
    ensures MinersKnown(Append(a, b), n)
  {
    var r := Append(a, b);
    forall i | 0 < i < |r.blocks| ensures 0 <= r.blocks[i].miner < n {
      if i < |a.blocks| {
        assert r.blocks[i] == GetBlock(r, a.base + i) == GetBlock(a, a.base + i);
      }
    }
  }

  /** How many of the blocks `bs` were mined by `mi`. */
  function MinedBy(bs: seq<Block>, mi: int): nat
  {
    if |bs| == 0 then 0
    else MinedBy(bs[..|bs| - 1], mi) + (if bs[|bs| - 1].miner == mi then 1 else 0)
  }

  /** Appending a block adds one to its miner's count among the non-base blocks. */
  lemma MinedByAppend(bs: seq<Block>, b: Block, mi: int)
    requires |bs| > 0
    ensures MinedBy((bs + [b])[1..], mi) == MinedBy(bs[1..], mi) + (if b.miner == mi then 1 else 0)
  {
    assert (bs + [b])[1..] == bs[1..] + [b];
    assert (bs[1..] + [b])[..|bs| - 1] == bs[1..];
  }

  /** A longer prefix holds at least as many of a miner's blocks. */
  lemma {:induction false} MinedByPrefix(bs: seq<Block>, mi: int, j: int, k: int)
    requires 0 <= j <= k <= |bs|
    ensures MinedBy(bs[..j], mi) <= MinedBy(bs[..k], mi)
    decreases k - j
  {
    if j < k {
      assert bs[..k][..k - 1] == bs[..k - 1];
      MinedByPrefix(bs, mi, j, k - 1);
    }
  }

  /** How many blocks mined by `mi` lie on the chain from `bid` down to, not including, the base. */
  function ChainMinedBy(a: Arena, bid: int, mi: int): nat
    requires WellFormed(a) && ValidBlock(a, bid)
    decreases bid - a.base
  {
    if bid == a.base then 0
    else
      assert LinkedAt(a, bid - a.base);
      (if GetBlock(a, bid).miner == mi then 1 else 0) + ChainMinedBy(a, Parent(a, bid), mi)
  }

  /**
   * The chain below a block holds no more of a miner's blocks than the arena
   * does between the base (exclusive) and that block (inclusive).
   */
  lemma {:induction false} ChainBounded(a: Arena, bid: int, mi: int)
    requires WellFormed(a) && ValidBlock(a, bid)
    ensures ChainMinedBy(a, bid, mi) <= MinedBy(a.blocks[1..bid - a.base + 1], mi)
    decreases bid - a.base
  {
    if bid != a.base {
      var idx := bid - a.base;
      assert LinkedAt(a, idx);
      var p := Parent(a, bid);
      var pidx := p - a.base;
      ChainBounded(a, p, mi);
      var span := a.blocks[1..idx + 1];
      assert span[..idx - 1] == a.blocks[1..idx];
      assert 0 <= pidx < idx;
      assert a.blocks[1..pidx + 1] == span[..pidx] by {
        forall k | 0 <= k < pidx ensures a.blocks[1..pidx + 1][k] == span[..pidx][k] {
          assert a.blocks[1..pidx + 1][k] == a.blocks[k + 1] == span[k];
        }
      }
      MinedByPrefix(span, mi, pidx, idx - 1);
    }
  }

  /**
   * The credit walk run when pruning to `bid`: every block from `bid` down to,
   * but not including, the base is credited to its miner once. Each miner's
   * credit grows by its number of blocks on that chain, nothing else changes,
   * and the total grows by the height gained over the base.
   */
  function CreditChain(a: Arena, ms: seq<Miner>, bid: int): (r: seq<Miner>)
    requires WellFormed(a) && ValidBlock(a, bid) && MinersKnown(a, |ms|)
    ensures |r| == |ms|
    ensures forall mi :: 0 <= mi < |ms| ==>
              r[mi] == ms[mi].(credit := ms[mi].credit + ChainMinedBy(a, bid, mi))
    ensures TotalCredit(r) == TotalCredit(ms) + GetHeight(a, bid) - BaseHeight(a)
    decreases bid - a.base
  {
    if bid == a.base then ms
    else
      assert LinkedAt(a, bid - a.base);
      var b := GetBlock(a, bid);
      var bumped := ms[b.miner := ms[b.miner].(credit := ms[b.miner].credit + 1)];
      TotalCreditUpdate(ms, b.miner, bumped[b.miner]);
      CreditChain(a, bumped, b.parent)
  }
}
