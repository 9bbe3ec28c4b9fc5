/**
 * The simulator's tip-count map: for each block that some miner is mining on,
 * how many miners are mining on it. It is kept incrementally by stopMining
 * (decrement, delete at zero) and startMining (increment); here it is related
 * to the multiset of the miners' current tips.
 */
module TipCount {

  /** Reading a map the way a Go map does: a missing key reads as zero. */
  function Lookup(m: map<int, int>, k: int): int
  {
    if k in m then m[k] else 0
  }

  /** stopMining's bookkeeping: one miner fewer on `b`; a count reaching zero drops the key. */
  function Decrement(m: map<int, int>, b: int): (r: map<int, int>)
    ensures b !in r <==> Lookup(m, b) == 1
    ensures b in r ==> r[b] == Lookup(m, b) - 1
    ensures forall k :: k != b ==> (k in r <==> k in m) && Lookup(r, k) == Lookup(m, k)
  {
    var n := Lookup(m, b) - 1;
    if n == 0 then m - {b} else m[b := n]
  }

  /** startMining's bookkeeping: one miner more on `b`. */
  function Increment(m: map<int, int>, b: int): (r: map<int, int>)
    ensures b in r && r[b] == Lookup(m, b) + 1
    ensures forall k :: k != b ==> (k in r <==> k in m) && Lookup(r, k) == Lookup(m, k)
  {
    m[b := Lookup(m, b) + 1]
  }

  /**
   * The map that matches a list of tips: exactly the blocks some miner is on,
   * each mapped to the number of miners on it, and never to zero.
   */
  function Tally(tips: seq<int>): (m: map<int, int>)
    ensures forall b :: b in m <==> b in tips
    ensures forall b :: b in m ==> m[b] == multiset(tips)[b] >= 1
  {
    map b | b in tips :: multiset(tips)[b]
  }

  /**
   * Moving one miner from its tip to `b` by stopMining followed by startMining
   * keeps the map equal to the tally of the miners' tips.
   */
  lemma MoveTally(tips: seq<int>, i: int, b: int)
    requires 0 <= i < |tips|
    ensures Increment(Decrement(Tally(tips), tips[i]), b) == Tally(tips[i := b])
  {
    var after := tips[i := b];
    MoveMultiset(tips, i, b);
    var lhs := Increment(Decrement(Tally(tips), tips[i]), b);
    var rhs := Tally(after);
    forall k ensures k in lhs <==> k in rhs {
      assert k in rhs <==> k in multiset(after);
      assert k in tips <==> k in multiset(tips);
    }
    forall k | k in lhs ensures lhs[k] == rhs[k] {
      assert Lookup(lhs, k) == lhs[k];
      assert k in tips <==> k in multiset(tips);
    }
  }

  lemma MoveMultiset(tips: seq<int>, i: int, b: int)
    requires 0 <= i < |tips|
    ensures multiset(tips[i := b]) == multiset(tips) - multiset{tips[i]} + multiset{b}
  {
    assert tips == tips[..i] + [tips[i]] + tips[i + 1..];
    assert tips[i := b] == tips[..i] + [b] + tips[i + 1..];
  }

  /** A single key means every miner is on the same block, the first miner's tip. */
  lemma SingleKey(tips: seq<int>)
    requires |tips| > 0 && |Tally(tips)| == 1
    ensures forall i :: 0 <= i < |tips| ==> tips[i] == tips[0]
  {
    var keys := Tally(tips).Keys;
    assert tips[0] in keys;
    assert |keys - {tips[0]}| == 0;
    forall i | 0 <= i < |tips| ensures tips[i] == tips[0] {
      assert tips[i] in keys;
      assert tips[i] !in keys - {tips[0]};
    }
  }

  /** All `n` miners starting on the same block yield one key counting all of them. */
  lemma {:induction false} UniformTally(n: nat, b: int)
    requires n > 0
    ensures Tally(seq(n, _ => b)) == map[b := n]
  {
    var tips := seq(n, _ => b);
    UniformCount(n, b);
    assert tips[0] == b;
    forall k ensures k in Tally(tips) <==> k == b {
      if k in tips {
        var i :| 0 <= i < |tips| && tips[i] == k;
      }
    }
  }

  lemma {:induction false} UniformCount(n: nat, b: int)
    ensures multiset(seq(n, _ => b))[b] == n
  {
    if n > 0 {
      UniformCount(n - 1, b);
      assert seq(n, _ => b) == seq(n - 1, _ => b) + [b];
    }
  }

  /** The smallest key of a non-empty key set; it fixes the order in which counts are summed. */
  ghost function MinKey(keys: set<int>): (k: int)
    requires keys != {}
    ensures k in keys && forall x :: x in keys ==> k <= x
  {
    SomeElement(keys);
    var y :| y in keys;
    MinExists(keys, y);
    var k :| k in keys && forall x :: x in keys ==> k <= x;
    k
  }

  /** A non-empty set has an element. */
  lemma SomeElement(keys: set<int>)
    requires keys != {}
    ensures exists y :: y in keys
  {
    if forall x :: x !in keys {
      NoElementIsEmpty(keys);
    }
  }

  /** A set with no element is empty. */
  lemma NoElementIsEmpty(keys: set<int>)
    requires forall x :: x !in keys
    ensures keys == {}
  {
    assert forall x :: x in keys <==> x in {};
  }

  lemma {:induction false} MinExists(keys: set<int>, y: int)
    requires y in keys
    ensures exists k :: k in keys && forall x :: x in keys ==> k <= x
    decreases |keys|
  {
    if forall x :: x in keys ==> y <= x {
      assert y in keys && forall x :: x in keys ==> y <= x;
    } else {
      var x :| x in keys && x < y;
      MinExists(keys - {y}, x);
      var k :| k in keys - {y} && forall z :: z in keys - {y} ==> k <= z;
      forall z | z in keys ensures k <= z {
        if z != y {
          assert z in keys - {y};
        }
      }
      assert k in keys && forall z :: z in keys ==> k <= z;
    }
  }

  /** The sum of all counts held in the map. */
  ghost function SumCounts(m: map<int, int>): int
    decreases |m.Keys|
  {
    if m.Keys == {} then 0
    else
      var k := MinKey(m.Keys);
      assert |(m - {k}).Keys| < |m.Keys| by {
        assert (m - {k}).Keys == m.Keys - {k};
      }
      m[k] + SumCounts(m - {k})
  }

  /** The tips with every occurrence of `k` taken out. */
  function Without(tips: seq<int>, k: int): seq<int>
  {
    if |tips| == 0 then []
    else if tips[0] == k then Without(tips[1..], k)
    else [tips[0]] + Without(tips[1..], k)
  }

  lemma {:induction false} WithoutCounts(tips: seq<int>, k: int)
    ensures multiset(Without(tips, k)) == multiset(tips)[k := 0]
    ensures |Without(tips, k)| + multiset(tips)[k] == |tips|
  {
    if |tips| > 0 {
      WithoutCounts(tips[1..], k);
      assert tips == [tips[0]] + tips[1..];
    }
  }

  /** The counts add up to the number of miners. */
  lemma {:induction false} SumIsMinerCount(tips: seq<int>)
    ensures SumCounts(Tally(tips)) == |tips|
    decreases |Tally(tips).Keys|
  {
    var m := Tally(tips);
    if m.Keys == {} {
      assert forall b :: b !in multiset(tips);
      assert multiset(tips) == multiset{};
    } else {
      var k := MinKey(m.Keys);
      var rest := Without(tips, k);
      WithoutCounts(tips, k);
      forall b ensures b in Tally(rest) <==> b in m - {k} {
        assert b in rest <==> b in multiset(rest);
        assert b in tips <==> b in multiset(tips);
      }
      assert Tally(rest) == m - {k};
      assert (m - {k}).Keys == m.Keys - {k};
      SumIsMinerCount(rest);
    }
  }
}
