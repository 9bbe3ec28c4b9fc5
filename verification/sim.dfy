/**
 * The simulator's state and its per-event transition: stale and not-better
 * events are dropped, a successful mining event appends a block, a strictly
 * higher received block switches the miner's tip (measuring the reorg), and
 * both successful paths relay to peers and start mining again. Pruning with
 * credit runs at the top of every loop iteration.
 */
module Sim {
  import opened BlockArena
  import opened TipCount
  import opened EventQueue
  import opened Ledger

  /**
   * Whole simulator state: the clock, the block arena, the miners, the pending
   * events, the tip-count map and the deepest reorg seen so far.
   */
  datatype State = State(
    time: real,
    arena: Arena,
    miners: seq<Miner>,
    queue: multiset<Event>,
    tips: map<int, int>,
    maxReorg: int)

  /** Every miner mines on a block that still resolves. */
  predicate TipsValid(s: State)
  {
    forall mi :: 0 <= mi < |s.miners| ==> ValidBlock(s.arena, s.miners[mi].tip)
  }

  /** Every peer link points at an existing miner. */
  predicate PeersKnown(s: State)
  {
    forall mi, j :: 0 <= mi < |s.miners| && 0 <= j < |s.miners[mi].peers| ==>
      0 <= s.miners[mi].peers[j].miner < |s.miners|
  }

  /** Every pending event is addressed to an existing miner. */
  predicate EventsAddressed(s: State)
  {
    forall e :: e in s.queue ==> 0 <= e.to < |s.miners|
  }

  /** Miner `mi` has a pending mining event for the block it currently mines on. */
  ghost predicate HasLiveEvent(s: State, mi: int)
    requires 0 <= mi < |s.miners|
  {
    exists e :: e in s.queue && e.to == mi && e.mining && e.bid == s.miners[mi].tip
  }

  /**
   * Each miner's counters: credit is non-negative, and credit plus the miner's
   * retained blocks above the base never exceed what it mined.
   */
  predicate CountersSound(s: State)
    requires |s.arena.blocks| > 0
  {
    forall mi :: 0 <= mi < |s.miners| ==>
      0 <= s.miners[mi].credit &&
      s.miners[mi].credit + MinedBy(s.arena.blocks[1..], mi) <= s.miners[mi].mined
  }

  /** What processing an event needs to be well defined. */
  predicate Ready(s: State)
  {
    |s.miners| > 0 &&
    WellFormed(s.arena) &&
    TipsValid(s) &&
    PeersKnown(s) &&
    EventsAddressed(s)
  }

  /** The invariant the main loop keeps. */
  ghost predicate Inv(s: State)
  {
    Ready(s) &&
    MinersKnown(s.arena, |s.miners|) &&
    (forall mi :: 0 <= mi < |s.miners| ==> HasLiveEvent(s, mi)) &&
    s.tips == Tally(Tips(s.miners)) &&
    CountersSound(s) &&
    TotalCredit(s.miners) == BaseHeight(s.arena) &&
    s.maxReorg >= 0
  }

  /**
   * The state before the first event: the genesis arena, every miner mining on
   * the genesis block with zero counters, and one mining event per miner due
   * after its solve time.
   */
  function Init(peers: seq<seq<Peer>>, solves: seq<real>): (s: State)
    requires |peers| > 0 && |solves| == |peers|
    requires forall mi, j :: 0 <= mi < |peers| && 0 <= j < |peers[mi]| ==>
               0 <= peers[mi][j].miner < |peers|
    ensures Inv(s)
    ensures s.time == 0.0 && s.maxReorg == 0 && s.arena == Genesis()
    ensures |s.miners| == |peers|
    ensures forall mi :: 0 <= mi < |peers| ==>
              s.miners[mi] == Miner(peers[mi], GenesisId, 0, 0)
    ensures s.tips == map[GenesisId := |peers|]
    ensures |s.queue| == |peers|
    ensures forall mi :: 0 <= mi < |peers| ==> Event(mi, true, solves[mi], GenesisId) in s.queue
  {
    var n := |peers|;
    var miners := seq(n, mi requires 0 <= mi < n => Miner(peers[mi], GenesisId, 0, 0));
    var events := seq(n, mi requires 0 <= mi < n => Event(mi, true, 0.0 + solves[mi], GenesisId));
    var s := State(0.0, Genesis(), miners, multiset(events), map[GenesisId := n], 0);
    InitInv(peers, solves, s);
    s
  }

  lemma InitInv(peers: seq<seq<Peer>>, solves: seq<real>, s: State)
    requires |peers| > 0 && |solves| == |peers|
    requires forall mi, j :: 0 <= mi < |peers| && 0 <= j < |peers[mi]| ==>
               0 <= peers[mi][j].miner < |peers|
    requires s.time == 0.0 && s.arena == Genesis() && s.maxReorg == 0
    requires s.miners == seq(|peers|, mi requires 0 <= mi < |peers| => Miner(peers[mi], GenesisId, 0, 0))
    requires s.queue == multiset(seq(|peers|, mi requires 0 <= mi < |peers| => Event(mi, true, 0.0 + solves[mi], GenesisId)))
    requires s.tips == map[GenesisId := |peers|]
    ensures Inv(s)
    ensures forall mi :: 0 <= mi < |peers| ==> Event(mi, true, solves[mi], GenesisId) in s.queue
  {
    var n := |peers|;
    var events := seq(n, mi requires 0 <= mi < n => Event(mi, true, 0.0 + solves[mi], GenesisId));
    assert Tips(s.miners) == seq(n, _ => GenesisId);
    UniformTally(n, GenesisId);
    forall mi | 0 <= mi < n
      ensures HasLiveEvent(s, mi) && Event(mi, true, solves[mi], GenesisId) in s.queue
    {
      assert events[mi] in multiset(events);
    }
    forall e | e in s.queue ensures 0 <= e.to < n {
      assert e in events;
    }
    assert TotalCredit(s.miners) == 0 by {
      ZeroCredit(s.miners);
    }
  }

  lemma {:induction false} ZeroCredit(ms: seq<Miner>)
    requires forall i :: 0 <= i < |ms| ==> ms[i].credit == 0
    ensures TotalCredit(ms) == 0
  {
    if |ms| > 0 {
      ZeroCredit(ms[..|ms| - 1]);
    }
  }

  /** The peer is mining on a block lower than `nb`, so it would switch to it. */
  predicate Behind(a: Arena, tips: seq<int>, p: Peer, nb: int)
    requires ValidBlock(a, nb) && 0 <= p.miner < |tips| && ValidBlock(a, tips[p.miner])
  {
    GetHeight(a, tips[p.miner]) < GetHeight(a, nb)
  }

  /** The receive event a relay schedules at a peer. */
  function Notice(now: real, p: Peer, nb: int): Event
  {
    Event(p.miner, false, now + p.delay, nb)
  }

  /** Peers a relay reaches the tips of. */
  predicate PeersReach(a: Arena, tips: seq<int>, peers: seq<Peer>)
  {
    forall j :: 0 <= j < |peers| ==>
      0 <= peers[j].miner < |tips| && ValidBlock(a, tips[peers[j].miner])
  }

  /** How many of the peers are behind `nb`. */
  function NumBehind(a: Arena, tips: seq<int>, peers: seq<Peer>, nb: int): nat
    requires ValidBlock(a, nb) && PeersReach(a, tips, peers)
  {
    if |peers| == 0 then 0
    else
      var n := |peers| - 1;
      NumBehind(a, tips, peers[..n], nb) + (if Behind(a, tips, peers[n], nb) then 1 else 0)
  }

  /** The links on which relay would schedule exactly the event `e`. */
  ghost function LinksFor(a: Arena, tips: seq<int>, peers: seq<Peer>, now: real, nb: int, e: Event): set<int>
    requires ValidBlock(a, nb) && PeersReach(a, tips, peers)
  {
    set j | 0 <= j < |peers| && Behind(a, tips, peers[j], nb) && e == Notice(now, peers[j], nb)
  }

  /**
   * relay: one receive event per peer that is behind the new block, and none
   * for the others. Each event goes to the peer, is a receive, carries the new
   * block and is due after the link's delay; an event occurs as many times as
   * there are links it is scheduled on.
   */
  function RelayEvents(a: Arena, tips: seq<int>, peers: seq<Peer>, now: real, nb: int): (r: seq<Event>)
    requires ValidBlock(a, nb) && PeersReach(a, tips, peers)
    ensures |r| == NumBehind(a, tips, peers, nb) <= |peers|
    ensures forall e :: multiset(r)[e] == |LinksFor(a, tips, peers, now, nb, e)|
    ensures forall e :: e in r <==>
              exists j :: 0 <= j < |peers| && Behind(a, tips, peers[j], nb) && e == Notice(now, peers[j], nb)
  {
    if |peers| == 0 then []
    else
      var n := |peers| - 1;
      var front := RelayEvents(a, tips, peers[..n], now, nb);
      var last := if Behind(a, tips, peers[n], nb) then [Notice(now, peers[n], nb)] else [];
      RelayCounts(a, tips, peers, now, nb, front, last);
      RelayMembers(a, tips, peers, now, nb, front + last);
      front + last
  }

  /** The event counts of relay over all links, from those over all but the last. */
  lemma RelayCounts(a: Arena, tips: seq<int>, peers: seq<Peer>, now: real, nb: int,
                    front: seq<Event>, last: seq<Event>)
    requires ValidBlock(a, nb) && PeersReach(a, tips, peers) && |peers| > 0
    requires PeersReach(a, tips, peers[..|peers| - 1])
    requires forall e :: multiset(front)[e] == |LinksFor(a, tips, peers[..|peers| - 1], now, nb, e)|
    requires last == if Behind(a, tips, peers[|peers| - 1], nb) then [Notice(now, peers[|peers| - 1], nb)] else []
    ensures forall e :: multiset(front + last)[e] == |LinksFor(a, tips, peers, now, nb, e)|
  {
    forall e ensures multiset(front + last)[e] == |LinksFor(a, tips, peers, now, nb, e)| {
      LinksSplit(a, tips, peers, now, nb, e);
    }
  }

  /**
   * The links for `e` over all peers are those over all but the last, plus
   * the last link when it schedules `e`.
   */
  lemma LinksSplit(a: Arena, tips: seq<int>, peers: seq<Peer>, now: real, nb: int, e: Event)
    requires ValidBlock(a, nb) && PeersReach(a, tips, peers) && |peers| > 0
    requires PeersReach(a, tips, peers[..|peers| - 1])
    ensures var n := |peers| - 1;
            var hit: set<int> := if Behind(a, tips, peers[n], nb) && e == Notice(now, peers[n], nb) then {n} else {};
            LinksFor(a, tips, peers, now, nb, e) == LinksFor(a, tips, peers[..n], now, nb, e) + hit &&
            LinksFor(a, tips, peers[..n], now, nb, e) * hit == {}
  {
    var n := |peers| - 1;
    var hit: set<int> := if Behind(a, tips, peers[n], nb) && e == Notice(now, peers[n], nb) then {n} else {};
    forall j ensures j in LinksFor(a, tips, peers, now, nb, e) <==> j in LinksFor(a, tips, peers[..n], now, nb, e) + hit {
      if 0 <= j < n {
        assert peers[..n][j] == peers[j];
      }
    }
  }

  /** An event is relayed exactly when some link schedules it. */
  lemma RelayMembers(a: Arena, tips: seq<int>, peers: seq<Peer>, now: real, nb: int, r: seq<Event>)
    requires ValidBlock(a, nb) && PeersReach(a, tips, peers)
    requires forall e :: multiset(r)[e] == |LinksFor(a, tips, peers, now, nb, e)|
    ensures forall e :: e in r <==>
              exists j :: 0 <= j < |peers| && Behind(a, tips, peers[j], nb) && e == Notice(now, peers[j], nb)
  {
    forall e ensures e in r <==>
                     exists j :: 0 <= j < |peers| && Behind(a, tips, peers[j], nb) && e == Notice(now, peers[j], nb)
    {
      var links := LinksFor(a, tips, peers, now, nb, e);
      assert e in r <==> multiset(r)[e] > 0;
      if links != {} {
        SomeElement(links);
        var j :| j in links;
        assert 0 <= j < |peers| && Behind(a, tips, peers[j], nb) && e == Notice(now, peers[j], nb);
      } else {
        assert forall j :: 0 <= j < |peers| && Behind(a, tips, peers[j], nb) && e == Notice(now, peers[j], nb) ==> j in links;
      }
    }
  }

  /** Miner `mi`'s peers all reach valid tips, as relay needs. */
  lemma ReachFromInv(s: State, mi: int)
    requires PeersKnown(s) && TipsValid(s) && 0 <= mi < |s.miners|
    ensures PeersReach(s.arena, Tips(s.miners), s.miners[mi].peers)
  {
    forall j | 0 <= j < |s.miners[mi].peers|
      ensures 0 <= s.miners[mi].peers[j].miner < |Tips(s.miners)|
      ensures ValidBlock(s.arena, Tips(s.miners)[s.miners[mi].peers[j].miner])
    {
    }
  }

  /**
   * The event changes nothing but the clock. The tests compare ids only: a
   * mining event is discarded when its id differs from the miner's tip, a
   * receive event when its id does not resolve or resolves to a block not
   * strictly higher than the miner's tip. Ids are reissued after a prune (see
   * `ReissuedId`), so an id that matches may name a different block than the
   * one the event was created for.
   */
  predicate Discarded(s: State, ev: Event)
    requires 0 <= ev.to < |s.miners| && ValidBlock(s.arena, s.miners[ev.to].tip)
  {
    var tip := s.miners[ev.to].tip;
    if ev.mining then ev.bid != tip
    else !ValidBlock(s.arena, ev.bid) || GetHeight(s.arena, ev.bid) <= GetHeight(s.arena, tip)
  }

  /** The block a non-discarded mining event appends. */
  function MinedBlock(s: State, ev: Event): Block
    requires 0 <= ev.to < |s.miners| && ValidBlock(s.arena, s.miners[ev.to].tip)
  {
    var tip := s.miners[ev.to].tip;
    Block(tip, GetHeight(s.arena, tip) + 1, ev.to)
  }

  function Max(x: int, y: int): int
  {
    if x < y then y else x
  }

  /**
   * A mining event for the block the miner still mines on: one block is
   * appended as a child of that tip, the miner's mined count goes up by one,
   * the miner moves to the new block, the block is relayed to the peers that
   * are behind it and a new mining attempt is scheduled. Nothing else changes.
   */
  function Mine(s: State, ev: Event, solve: real): (r: State)
    requires Ready(s) && 0 <= ev.to < |s.miners| && ev.mining && ev.bid == s.miners[ev.to].tip
    ensures r.time == ev.when && r.maxReorg == s.maxReorg
    ensures r.arena.base == s.arena.base && |r.arena.blocks| == |s.arena.blocks| + 1
    ensures forall bid :: ValidBlock(r.arena, bid) <==> ValidBlock(s.arena, bid) || bid == NextId(s.arena)
    ensures forall bid :: ValidBlock(s.arena, bid) ==> GetBlock(r.arena, bid) == GetBlock(s.arena, bid)
    ensures GetBlock(r.arena, NextId(s.arena)) == Block(ev.bid, GetHeight(s.arena, ev.bid) + 1, ev.to)
    ensures WellFormed(r.arena) && BaseHeight(r.arena) == BaseHeight(s.arena)
    ensures |r.miners| == |s.miners|
    ensures r.miners[ev.to] == s.miners[ev.to].(tip := NextId(s.arena), mined := s.miners[ev.to].mined + 1)
    ensures forall mi :: 0 <= mi < |s.miners| && mi != ev.to ==> r.miners[mi] == s.miners[mi]
    ensures r.tips == Increment(Decrement(s.tips, ev.bid), NextId(s.arena))
    ensures r.queue == s.queue - multiset{ev}
                       + multiset(RelayEvents(r.arena, Tips(s.miners), s.miners[ev.to].peers, ev.when, NextId(s.arena)))
                       + multiset{Event(ev.to, true, ev.when + solve, NextId(s.arena))}
  {
    var mi := ev.to;
    var m := s.miners[mi];
    var nb := NextId(s.arena);
    var grown := Append(s.arena, MinedBlock(s, ev));
    ReachFromInv(s, mi);
    var relayed := RelayEvents(grown, Tips(s.miners), m.peers, ev.when, nb);
    s.(time := ev.when,
       arena := grown,
       miners := s.miners[mi := m.(tip := nb, mined := m.mined + 1)],
       tips := Increment(Decrement(s.tips, ev.bid), nb),
       queue := s.queue - multiset{ev} + multiset(relayed) + multiset{Event(mi, true, ev.when + solve, nb)})
  }

  /**
   * A received block strictly higher than the miner's tip: the arena is
   * untouched, the deepest reorg becomes the larger of its old value and the
   * depth of this switch, the miner moves to the received block, relays it and
   * schedules a new mining attempt. Nothing else changes.
   */
  function Receive(s: State, ev: Event, solve: real): (r: State)
    requires Ready(s) && 0 <= ev.to < |s.miners| && !ev.mining && ValidBlock(s.arena, ev.bid)
    requires GetHeight(s.arena, ev.bid) > GetHeight(s.arena, s.miners[ev.to].tip)
    ensures r.time == ev.when && r.arena == s.arena
    ensures r.maxReorg == Max(s.maxReorg, ReorgDepth(s.arena, s.miners[ev.to].tip, ev.bid))
    ensures |r.miners| == |s.miners|
    ensures r.miners[ev.to] == s.miners[ev.to].(tip := ev.bid)
    ensures forall mi :: 0 <= mi < |s.miners| && mi != ev.to ==> r.miners[mi] == s.miners[mi]
    ensures r.tips == Increment(Decrement(s.tips, s.miners[ev.to].tip), ev.bid)
    ensures r.queue == s.queue - multiset{ev}
                       + multiset(RelayEvents(s.arena, Tips(s.miners), s.miners[ev.to].peers, ev.when, ev.bid))
                       + multiset{Event(ev.to, true, ev.when + solve, ev.bid)}
  {
    var mi := ev.to;
    var tip := s.miners[mi].tip;
    ReachFromInv(s, mi);
    var relayed := RelayEvents(s.arena, Tips(s.miners), s.miners[mi].peers, ev.when, ev.bid);
    s.(time := ev.when,
       maxReorg := Max(s.maxReorg, ReorgDepth(s.arena, tip, ev.bid)),
       miners := s.miners[mi := s.miners[mi].(tip := ev.bid)],
       tips := Increment(Decrement(s.tips, tip), ev.bid),
       queue := s.queue - multiset{ev} + multiset(relayed) + multiset{Event(mi, true, ev.when + solve, ev.bid)})
  }

  /**
   * Processing one popped event `ev` (still in the queue of `s`); `solve` is
   * the time the miner's next mining attempt takes. A discarded event only
   * advances the clock and leaves the queue; otherwise the miner's tip moves
   * to a strictly higher block and the deepest reorg never decreases.
   */
  function Handle(s: State, ev: Event, solve: real): (r: State)
    requires Ready(s) && ev in s.queue
    ensures r.time == ev.when && |r.miners| == |s.miners| && r.maxReorg >= s.maxReorg
    ensures r.arena.base == s.arena.base && |r.arena.blocks| >= |s.arena.blocks|
    ensures r.arena.blocks[..|s.arena.blocks|] == s.arena.blocks
    ensures forall mi :: 0 <= mi < |s.miners| ==>
              r.miners[mi].credit == s.miners[mi].credit && s.miners[mi].mined <= r.miners[mi].mined
    ensures CountersGrow(s.miners, r.miners)
    ensures Discarded(s, ev) ==> r == s.(time := ev.when, queue := s.queue - multiset{ev})
    ensures !Discarded(s, ev) ==>
              ValidBlock(r.arena, r.miners[ev.to].tip) &&
              GetHeight(r.arena, r.miners[ev.to].tip) > GetHeight(s.arena, s.miners[ev.to].tip)
  {
    if Discarded(s, ev) then s.(time := ev.when, queue := s.queue - multiset{ev})
    else if ev.mining then Mine(s, ev, solve)
    else Receive(s, ev, solve)
  }

  /** Exactly one block is being mined on, and something lies above the base. */
  predicate PruneDue(s: State)
  {
    |s.tips| == 1 && |s.arena.blocks| > 1
  }

  /**
   * Pruning at the top of the loop. When it is due, every miner is on the same
   * block; each block from that block down to, not including, the old base is
   * credited once to its miner, so total credit grows by the height gained;
   * that block becomes the only retained block and the new base, and every
   * miner's tip still resolves. Otherwise nothing changes.
   */
  function Prune(s: State): (r: State)
    requires Inv(s)
    ensures r.time == s.time && r.queue == s.queue && r.tips == s.tips && r.maxReorg == s.maxReorg
    ensures |r.miners| == |s.miners| && TipsValid(r) && CountersGrow(s.miners, r.miners)
    ensures !PruneDue(s) ==> r == s
    ensures PruneDue(s) ==>
              (forall mi :: 0 <= mi < |s.miners| ==> s.miners[mi].tip == s.miners[0].tip) &&
              r.arena == Truncate(s.arena, s.miners[0].tip)
    ensures PruneDue(s) ==>
              forall mi :: 0 <= mi < |s.miners| ==>
                r.miners[mi] == s.miners[mi].(credit := s.miners[mi].credit + ChainMinedBy(s.arena, s.miners[0].tip, mi))
    ensures PruneDue(s) ==>
              TotalCredit(r.miners) == TotalCredit(s.miners) + GetHeight(s.arena, s.miners[0].tip) - BaseHeight(s.arena)
  {
    if !PruneDue(s) then s
    else
      var nb := s.miners[0].tip;
      SingleKey(Tips(s.miners));
      s.(arena := Truncate(s.arena, nb), miners := CreditChain(s.arena, s.miners, nb))
  }

  /** Pruning a second time with no event in between changes nothing: no block is credited twice. */
  lemma PruneIdempotent(s: State)
    requires Inv(s)
    ensures Inv(Prune(s)) && Prune(Prune(s)) == Prune(s)
  {
    PruneKeepsInv(s);
  }

  lemma PruneKeepsInv(s: State)
    requires Inv(s)
    ensures Inv(Prune(s))
  {
    var r := Prune(s);
    if PruneDue(s) {
      var nb := s.miners[0].tip;
      assert Tips(r.miners) == Tips(s.miners);
      forall mi | 0 <= mi < |r.miners|
        ensures 0 <= r.miners[mi].credit
        ensures r.miners[mi].credit + MinedBy(r.arena.blocks[1..], mi) <= r.miners[mi].mined
      {
        ChainBounded(s.arena, nb, mi);
        MinedByPrefix(s.arena.blocks[1..], mi, nb - s.arena.base, |s.arena.blocks| - 1);
        assert s.arena.blocks[1..][..nb - s.arena.base] == s.arena.blocks[1..nb - s.arena.base + 1];
        assert s.arena.blocks[1..][..|s.arena.blocks| - 1] == s.arena.blocks[1..];
        assert r.arena.blocks[1..] == [];
      }
      forall mi | 0 <= mi < |r.miners| ensures HasLiveEvent(r, mi) {
        assert HasLiveEvent(s, mi);
        var e :| e in s.queue && e.to == mi && e.mining && e.bid == s.miners[mi].tip;
        assert e in r.queue && e.to == mi && e.mining && e.bid == r.miners[mi].tip;
      }
      forall mi, j | 0 <= mi < |r.miners| && 0 <= j < |r.miners[mi].peers|
        ensures 0 <= r.miners[mi].peers[j].miner < |r.miners|
      {
        assert r.miners[mi].peers == s.miners[mi].peers;
      }
    }
  }

  /** Handling any pending event keeps the invariant. */
  lemma HandleKeepsInv(s: State, ev: Event, solve: real)
    requires Inv(s) && ev in s.queue
    ensures Inv(Handle(s, ev, solve))
  {
    if Discarded(s, ev) {
      DiscardKeepsInv(s, ev);
    } else if ev.mining {
      MineKeepsInv(s, ev, solve);
    } else {
      ReceiveKeepsInv(s, ev, solve);
    }
  }

  lemma DiscardKeepsInv(s: State, ev: Event)
    requires Inv(s) && ev in s.queue && Discarded(s, ev)
    ensures Inv(s.(time := ev.when, queue := s.queue - multiset{ev}))
  {
    var r := s.(time := ev.when, queue := s.queue - multiset{ev});
    forall mi | 0 <= mi < |r.miners| ensures HasLiveEvent(r, mi) {
      assert HasLiveEvent(s, mi);
      var e :| e in s.queue && e.to == mi && e.mining && e.bid == s.miners[mi].tip;
      assert e != ev;
      assert e in r.queue && e.to == mi && e.mining && e.bid == r.miners[mi].tip;
    }
  }

  /** The invariant's facts about the miners, restated for a state whose miners differ only at `mi`. */
  lemma MinersMoved(s: State, r: State, mi: int, tip: int)
    requires Inv(s) && 0 <= mi < |s.miners| && |r.miners| == |s.miners|
    requires r.miners[mi] == s.miners[mi].(tip := tip, mined := r.miners[mi].mined)
    requires forall j :: 0 <= j < |s.miners| && j != mi ==> r.miners[j] == s.miners[j]
    requires r.tips == Increment(Decrement(s.tips, s.miners[mi].tip), tip)
    ensures r.miners == s.miners[mi := r.miners[mi]]
    ensures Tips(r.miners) == Tips(s.miners)[mi := tip]
    ensures r.tips == Tally(Tips(r.miners))
    ensures TotalCredit(r.miners) == TotalCredit(s.miners)
    ensures PeersKnown(r)
  {
    assert r.miners == s.miners[mi := r.miners[mi]];
    assert Tips(r.miners) == Tips(s.miners)[mi := tip];
    MoveTally(Tips(s.miners), mi, tip);
    TotalCreditUpdate(s.miners, mi, r.miners[mi]);
    forall i, j | 0 <= i < |r.miners| && 0 <= j < |r.miners[i].peers|
      ensures 0 <= r.miners[i].peers[j].miner < |r.miners|
    {
      assert r.miners[i].peers == s.miners[i].peers;
    }
  }

  /** Every pending event of `r` is either an old one or one just scheduled by relay or startMining. */
  lemma NewEventsAddressed(s: State, r: State, ev: Event, solve: real, nb: int, a: Arena)
    requires Inv(s) && ev in s.queue && |r.miners| == |s.miners|
    requires ValidBlock(a, nb) && PeersReach(a, Tips(s.miners), s.miners[ev.to].peers)
    requires r.queue == s.queue - multiset{ev}
                        + multiset(RelayEvents(a, Tips(s.miners), s.miners[ev.to].peers, ev.when, nb))
                        + multiset{Event(ev.to, true, ev.when + solve, nb)}
    requires r.miners[ev.to].tip == nb
    requires forall mi :: 0 <= mi < |s.miners| && mi != ev.to ==> r.miners[mi] == s.miners[mi]
    ensures EventsAddressed(r)
    ensures forall mi :: 0 <= mi < |r.miners| ==> HasLiveEvent(r, mi)
  {
    var peers := s.miners[ev.to].peers;
    var relayed := RelayEvents(a, Tips(s.miners), peers, ev.when, nb);
    forall e | e in r.queue ensures 0 <= e.to < |r.miners| {
      if e in multiset(relayed) {
        assert e in relayed;
        var j :| 0 <= j < |peers| && Behind(a, Tips(s.miners), peers[j], nb) && e == Notice(ev.when, peers[j], nb);
      } else if e != Event(ev.to, true, ev.when + solve, nb) {
        assert e in s.queue;
      }
    }
    var started := Event(ev.to, true, ev.when + solve, nb);
    assert started in r.queue && started.to == ev.to && started.mining && started.bid == r.miners[ev.to].tip;
    forall mi | 0 <= mi < |r.miners| && mi != ev.to
      ensures HasLiveEvent(r, mi)
    {
      assert HasLiveEvent(s, mi);
      var e :| e in s.queue && e.to == mi && e.mining && e.bid == s.miners[mi].tip;
      assert e != ev;
      assert e in r.queue && e.to == mi && e.mining && e.bid == r.miners[mi].tip;
    }
  }

  /** A mining event keeps the invariant. */
  lemma MineKeepsInv(s: State, ev: Event, solve: real)
    requires Inv(s) && ev in s.queue && ev.mining && !Discarded(s, ev)
    ensures Inv(Mine(s, ev, solve))
  {
    MinedKeepsInv(s, ev, solve, Mine(s, ev, solve));
  }

  lemma MinedKeepsInv(s: State, ev: Event, solve: real, r: State)
    requires Inv(s) && ev in s.queue && ev.mining && !Discarded(s, ev)
    requires r == Mine(s, ev, solve)
    ensures Inv(r)
  {
    var nb := NextId(s.arena);
    MinedArena(s, ev, r);
    MinersMoved(s, r, ev.to, nb);
    assert PeersReach(r.arena, Tips(s.miners), s.miners[ev.to].peers) by {
      ReachFromInv(s, ev.to);
    }
    NewEventsAddressed(s, r, ev, solve, nb, r.arena);
    assert Ready(r);
  }

  /** After a mining event the arena is still well formed and the tips and counters stay sound. */
  lemma MinedArena(s: State, ev: Event, r: State)
    requires Inv(s) && 0 <= ev.to < |s.miners| && ev.bid == s.miners[ev.to].tip
    requires r.arena == Append(s.arena, MinedBlock(s, ev))
    requires |r.miners| == |s.miners|
    requires r.miners[ev.to] == s.miners[ev.to].(tip := NextId(s.arena), mined := s.miners[ev.to].mined + 1)
    requires forall mi :: 0 <= mi < |s.miners| && mi != ev.to ==> r.miners[mi] == s.miners[mi]
    ensures WellFormed(r.arena) && BaseHeight(r.arena) == BaseHeight(s.arena)
    ensures TipsValid(r) && MinersKnown(r.arena, |r.miners|) && CountersSound(r)
  {
    var b := MinedBlock(s, ev);
    MinersKnownAppend(s.arena, b, |s.miners|);
    forall mi | 0 <= mi < |r.miners| ensures ValidBlock(r.arena, r.miners[mi].tip) {
      if mi != ev.to {
        assert ValidBlock(s.arena, s.miners[mi].tip);
      }
    }
    assert r.arena.blocks == s.arena.blocks + [b];
    forall mi | 0 <= mi < |r.miners|
      ensures 0 <= r.miners[mi].credit
      ensures r.miners[mi].credit + MinedBy(r.arena.blocks[1..], mi) <= r.miners[mi].mined
    {
      MinedByAppend(s.arena.blocks, b, mi);
    }
  }

  /** Switching to a received block keeps the invariant. */
  lemma ReceiveKeepsInv(s: State, ev: Event, solve: real)
    requires Inv(s) && ev in s.queue && !ev.mining && !Discarded(s, ev)
    ensures Inv(Receive(s, ev, solve))
  {
    ReceivedKeepsInv(s, ev, solve, Receive(s, ev, solve));
  }

  lemma ReceivedKeepsInv(s: State, ev: Event, solve: real, r: State)
    requires Inv(s) && ev in s.queue && !ev.mining && !Discarded(s, ev)
    requires r == Receive(s, ev, solve)
    ensures Inv(r)
  {
    MinersMoved(s, r, ev.to, ev.bid);
    ReachFromInv(s, ev.to);
    NewEventsAddressed(s, r, ev, solve, ev.bid, s.arena);
    CountersKept(s, r, ev.to, ev.bid);
    assert TipsValid(r) by {
      forall mi | 0 <= mi < |r.miners| ensures ValidBlock(r.arena, r.miners[mi].tip) {
        if mi != ev.to {
          assert ValidBlock(s.arena, s.miners[mi].tip);
        }
      }
    }
    assert Ready(r);
  }

  /** Counters are still sound when the arena is unchanged and one miner only changed its tip. */
  lemma CountersKept(s: State, r: State, mi: int, tip: int)
    requires |s.arena.blocks| > 0 && CountersSound(s) && r.arena == s.arena
    requires 0 <= mi < |s.miners| && r.miners == s.miners[mi := s.miners[mi].(tip := tip)]
    ensures CountersSound(r)
  {
  }

  /**
   * Under the invariant the tip-count map holds exactly the blocks some miner
   * is on, never a zero count, each count is the number of miners on that
   * block, and the counts add up to the number of miners.
   */
  lemma TipsCountMiners(s: State)
    requires Inv(s)
    ensures forall b :: b in s.tips <==> exists mi :: 0 <= mi < |s.miners| && s.miners[mi].tip == b
    ensures forall b :: b in s.tips ==> s.tips[b] >= 1 && s.tips[b] == multiset(Tips(s.miners))[b]
    ensures SumCounts(s.tips) == |s.miners|
  {
    var tips := Tips(s.miners);
    SumIsMinerCount(tips);
    forall b ensures b in s.tips <==> exists mi :: 0 <= mi < |s.miners| && s.miners[mi].tip == b {
      if b in tips {
        var mi :| 0 <= mi < |tips| && tips[mi] == b;
        assert 0 <= mi < |s.miners| && s.miners[mi].tip == b;
      }
    }
  }

  /** Under the invariant no miner is credited with more blocks than it mined. */
  lemma CreditBounded(s: State)
    requires Inv(s)
    ensures forall mi :: 0 <= mi < |s.miners| ==> 0 <= s.miners[mi].credit <= s.miners[mi].mined
  {
  }

  /** Under the invariant the queue is never empty, so the loop can always pop. */
  lemma QueueNonEmpty(s: State)
    requires Inv(s)
    ensures s.queue != multiset{}
  {
    assert HasLiveEvent(s, 0);
    var e :| e in s.queue && e.to == 0 && e.mining && e.bid == s.miners[0].tip;
  }

  /**
   * The clock is consistent: no pending event is due before the current time,
   * and no relay link has a negative delay.
   */
  predicate ClockOk(s: State)
  {
    (forall e :: e in s.queue ==> s.time <= e.when) &&
    forall mi, j :: 0 <= mi < |s.miners| && 0 <= j < |s.miners[mi].peers| ==> 0.0 <= s.miners[mi].peers[j].delay
  }

  /**
   * Handling an earliest event with a non-negative solve time never moves the
   * clock backwards and keeps it consistent.
   */
  lemma HandleKeepsClock(s: State, ev: Event, solve: real)
    requires Ready(s) && ClockOk(s) && IsEarliest(ev, s.queue) && 0.0 <= solve
    ensures s.time <= Handle(s, ev, solve).time
    ensures ClockOk(Handle(s, ev, solve))
  {
    if Discarded(s, ev) {
    } else if ev.mining {
      MinedClock(s, ev, solve, Mine(s, ev, solve));
    } else {
      ReceivedClock(s, ev, solve, Receive(s, ev, solve));
    }
  }

  lemma MinedClock(s: State, ev: Event, solve: real, r: State)
    requires Ready(s) && ClockOk(s) && IsEarliest(ev, s.queue) && 0.0 <= solve
    requires ev.mining && !Discarded(s, ev) && r == Mine(s, ev, solve)
    ensures ClockOk(r)
  {
    ReachFromInv(s, ev.to);
    ScheduledLater(s, r, ev, solve, r.arena, NextId(s.arena));
  }

  lemma ReceivedClock(s: State, ev: Event, solve: real, r: State)
    requires Ready(s) && ClockOk(s) && IsEarliest(ev, s.queue) && 0.0 <= solve
    requires !ev.mining && !Discarded(s, ev) && r == Receive(s, ev, solve)
    ensures ClockOk(r)
  {
    ReachFromInv(s, ev.to);
    ScheduledLater(s, r, ev, solve, s.arena, ev.bid);
  }

  /** Events left in the queue, relayed or newly scheduled are all due no earlier than the popped one. */
  lemma ScheduledLater(s: State, r: State, ev: Event, solve: real, a: Arena, nb: int)
    requires ClockOk(s) && IsEarliest(ev, s.queue) && 0.0 <= solve && 0 <= ev.to < |s.miners|
    requires ValidBlock(a, nb) && PeersReach(a, Tips(s.miners), s.miners[ev.to].peers)
    requires r.time == ev.when && |r.miners| == |s.miners|
    requires forall mi :: 0 <= mi < |s.miners| ==> r.miners[mi].peers == s.miners[mi].peers
    requires r.queue == s.queue - multiset{ev}
                        + multiset(RelayEvents(a, Tips(s.miners), s.miners[ev.to].peers, ev.when, nb))
                        + multiset{Event(ev.to, true, ev.when + solve, nb)}
    ensures ClockOk(r)
  {
    var peers := s.miners[ev.to].peers;
    var relayed := RelayEvents(a, Tips(s.miners), peers, ev.when, nb);
    forall e | e in r.queue ensures r.time <= e.when {
      if e in multiset(relayed) {
        assert e in relayed;
        var j :| 0 <= j < |peers| && Behind(a, Tips(s.miners), peers[j], nb) && e == Notice(ev.when, peers[j], nb);
      } else if e != Event(ev.to, true, ev.when + solve, nb) {
        assert e in s.queue;
      }
    }
  }

  /** Pruning touches neither the clock, the queue nor the relay links. */
  lemma PruneKeepsClock(s: State)
    requires Inv(s) && ClockOk(s)
    ensures ClockOk(Prune(s))
  {
    var r := Prune(s);
    forall mi, j | 0 <= mi < |r.miners| && 0 <= j < |r.miners[mi].peers|
      ensures 0.0 <= r.miners[mi].peers[j].delay
    {
      assert r.miners[mi].peers == s.miners[mi].peers;
    }
  }

  /** Pruning never lowers the base, so total credit never decreases. */
  lemma PruneRaisesBase(s: State)
    requires Inv(s)
    ensures BaseHeight(s.arena) <= BaseHeight(Prune(s).arena)
  {
    AboveBase(s.arena, s.miners[0].tip);
  }

  /**
   * A one-block fork run through the engine: miner 0 mines on 1001, miner 1
   * has extended the sibling 1002 with 1003. When miner 0 receives 1003 it
   * switches over, the deepest reorg becomes 1, both miners are then on 1003
   * and miner 0 has a new mining attempt on it.
   */
  lemma ForkSwitch()
    ensures var a := Arena(GenesisId, [Block(0, 0, NoMiner), Block(1000, 1, 0), Block(1000, 1, 1), Block(1002, 2, 1)]);
            var ev := Event(0, false, 5.0, 1003);
            var s := State(4.0, a, [Miner([], 1001, 1, 0), Miner([], 1003, 2, 0)],
                           multiset{ev, Event(0, true, 6.0, 1001), Event(1, true, 7.0, 1003)},
                           map[1001 := 1, 1003 := 1], 0);
            Ready(s) && ev in s.queue && !Discarded(s, ev) &&
            var r := Handle(s, ev, 2.0);
            r.maxReorg == 1 && r.time == 5.0 && r.arena == a &&
            r.miners[0].tip == 1003 && r.miners[1] == s.miners[1] &&
            r.tips == map[1003 := 2] && Event(0, true, 7.0, 1003) in r.queue
  {
    var a := Arena(GenesisId, [Block(0, 0, NoMiner), Block(1000, 1, 0), Block(1000, 1, 1), Block(1002, 2, 1)]);
    var ev := Event(0, false, 5.0, 1003);
    var s := State(4.0, a, [Miner([], 1001, 1, 0), Miner([], 1003, 2, 0)],
                   multiset{ev, Event(0, true, 6.0, 1001), Event(1, true, 7.0, 1003)},
                   map[1001 := 1, 1003 := 1], 0);
    ForkOfDepthOne();
    assert Ready(s);
    var r := Receive(s, ev, 2.0);
    assert r.tips == map[1003 := 2];
  }

  /** Miner 1's attempt on its orphan 1003, still pending after it moved to 1002. */
  const StaleAttempt := Event(1, true, 30.0, 1003)

  /** Miner 0's attempt on 1002, the first event after the prune. */
  const FirstMining := Event(0, true, 10.0, 1002)

  /** Miner 0's relay of the block it mines to miner 1. */
  const Relayed := Event(1, false, 11.0, 1003)

  /**
   * Both miners on 1002 (chain 1000, 1001, 1002 mined by miner 0), beside an
   * orphan 1003 of height 1 mined by miner 1, whose attempt on it is pending.
   */
  function ReissueStart(): State
  {
    State(9.0,
          Arena(GenesisId, [Block(0, 0, NoMiner), Block(1000, 1, 0), Block(1001, 2, 0), Block(1000, 1, 1)]),
          [Miner([Peer(1, 1.0)], 1002, 2, 0), Miner([], 1002, 1, 0)],
          multiset{FirstMining, Event(1, true, 20.0, 1002), StaleAttempt},
          map[1002 := 2], 0)
  }

  lemma ReissueStartInv()
    ensures Inv(ReissueStart()) && PruneDue(ReissueStart())
    ensures StaleAttempt in ReissueStart().queue && Discarded(ReissueStart(), StaleAttempt)
  {
    var s := ReissueStart();
    ReissueStartReady();
    assert HasLiveEvent(s, 0) by {
      assert FirstMining in s.queue;
    }
    assert HasLiveEvent(s, 1) by {
      assert Event(1, true, 20.0, 1002) in s.queue;
    }
    assert forall mi :: 0 <= mi < |s.miners| ==> HasLiveEvent(s, mi);
    assert MinersKnown(s.arena, |s.miners|);
    assert Tips(s.miners) == seq(2, _ => 1002);
    UniformTally(2, 1002);
    assert s.tips == Tally(Tips(s.miners));
    ReissueStartCounters();
  }

  lemma ReissueStartReady()
    ensures Ready(ReissueStart()) && MinersKnown(ReissueStart().arena, 2)
    ensures StaleAttempt in ReissueStart().queue && Discarded(ReissueStart(), StaleAttempt)
  {
    var a := ReissueStart().arena;
    assert LinkedAt(a, 1) && LinkedAt(a, 2) && LinkedAt(a, 3);
  }

  lemma ReissueStartCounters()
    ensures |ReissueStart().arena.blocks| > 0 && CountersSound(ReissueStart())
    ensures TotalCredit(ReissueStart().miners) == BaseHeight(ReissueStart().arena)
  {
    var s := ReissueStart();
    var bs := s.arena.blocks[1..];
    assert bs == [Block(1000, 1, 0), Block(1001, 2, 0), Block(1000, 1, 1)];
    var b1, b2 := bs[..1], bs[..2];
    assert b1[..0] == [] && b2[..1] == b1 && bs[..2] == b2;
    assert MinedBy(b1, 0) == 1 && MinedBy(b1, 1) == 0;
    assert MinedBy(b2, 0) == 2 && MinedBy(b2, 1) == 0;
    assert MinedBy(bs, 0) == 2 && MinedBy(bs, 1) == 1;
    assert CountersSound(s);
    assert TotalCredit(s.miners) == 0;
  }

  /** The start after the prune at the top of the next iteration. */
  function ReissuePruned(): State
  {
    ReissueStartInv();
    Prune(ReissueStart())
  }

  /** The pruned state spelled out: 1002 is the base and miner 0 is credited with 1001 and 1002. */
  function ReissueAfterPrune(): State
  {
    State(9.0, Arena(1002, [Block(1001, 2, 0)]),
          [Miner([Peer(1, 1.0)], 1002, 2, 2), Miner([], 1002, 1, 0)],
          multiset{FirstMining, Event(1, true, 20.0, 1002), StaleAttempt},
          map[1002 := 2], 0)
  }

  lemma ReissuePrunedFacts()
    ensures Inv(ReissuePruned()) && ReissuePruned() == ReissueAfterPrune()
    ensures Ready(ReissueAfterPrune()) && IsEarliest(FirstMining, ReissueAfterPrune().queue)
  {
    ReissuePrunedInv();
    ReissuePrunedIs();
    ReissueAfterPruneReady();
  }

  lemma ReissuePrunedInv()
    ensures Inv(ReissuePruned())
  {
    ReissueStartInv();
    PruneKeepsInv(ReissueStart());
  }

  lemma ReissuePrunedIs()
    ensures ReissuePruned() == ReissueAfterPrune()
  {
    var s := ReissueStart();
    ReissueStartInv();
    assert LinkedAt(s.arena, 1) && LinkedAt(s.arena, 2);
    assert ChainMinedBy(s.arena, 1001, 0) == 1 && ChainMinedBy(s.arena, 1001, 1) == 0;
    assert ChainMinedBy(s.arena, 1002, 0) == 2 && ChainMinedBy(s.arena, 1002, 1) == 0;
    var r := ReissuePruned();
    assert r.miners == ReissueAfterPrune().miners;
  }

  lemma ReissueAfterPruneReady()
    ensures Ready(ReissueAfterPrune()) && IsEarliest(FirstMining, ReissueAfterPrune().queue)
  {
  }

  /** Miner 0 mines on 1002; the new block gets the id 1003 again. */
  function ReissueMined(): State
  {
    ReissuePrunedFacts();
    Handle(ReissuePruned(), FirstMining, 5.0)
  }

  lemma ReissueMinedFacts()
    ensures var s := ReissueMined();
            Inv(s) && GetBlock(s.arena, 1003) == Block(1002, 3, 0) &&
            s.miners[1].tip == 1002 && StaleAttempt in s.queue && IsEarliest(Relayed, s.queue)
  {
    ReissuePrunedFacts();
    HandleKeepsInv(ReissuePruned(), FirstMining, 5.0);
    ReissueMinedArena();
    ReissueMinedQueue();
  }

  lemma ReissueMinedIsMine()
    ensures Ready(ReissueAfterPrune())
    ensures ReissueMined() == Mine(ReissueAfterPrune(), FirstMining, 5.0)
  {
    ReissuePrunedFacts();
  }

  lemma ReissueMinedArena()
    ensures GetBlock(ReissueMined().arena, 1003) == Block(1002, 3, 0)
    ensures |ReissueMined().miners| == 2 && ReissueMined().miners[1] == Miner([], 1002, 1, 0)
  {
    ReissueMinedIsMine();
  }

  lemma ReissueMinedQueue()
    ensures StaleAttempt in ReissueMined().queue && IsEarliest(Relayed, ReissueMined().queue)
  {
    var s1 := ReissueAfterPrune();
    ReissueMinedIsMine();
    var s := ReissueMined();
    var relayed := RelayEvents(s.arena, Tips(s1.miners), s1.miners[0].peers, 10.0, 1003);
    assert relayed == [Relayed] by {
      var peers := s1.miners[0].peers;
      assert peers[..0] == [];
      assert Behind(s.arena, Tips(s1.miners), peers[0], 1003);
    }
    QueueAfterMining(s.queue);
  }

  /** The queue after miner 0's block: the relay to miner 1 is due first. */
  lemma QueueAfterMining(q: multiset<Event>)
    requires q == multiset{FirstMining, Event(1, true, 20.0, 1002), StaleAttempt} - multiset{FirstMining}
                  + multiset([Relayed]) + multiset{Event(0, true, 15.0, 1003)}
    ensures StaleAttempt in q && IsEarliest(Relayed, q)
  {
    var rest := multiset{FirstMining, Event(1, true, 20.0, 1002), StaleAttempt} - multiset{FirstMining};
    assert StaleAttempt in rest;
    forall e | e in q ensures Relayed.when <= e.when {
      if e in rest {
        assert e in multiset{FirstMining, Event(1, true, 20.0, 1002), StaleAttempt};
      }
    }
  }

  /** Miner 1 receives the reissued 1003 and switches to it. */
  function ReissueReceived(): State
  {
    ReissueMinedFacts();
    Handle(ReissueMined(), Relayed, 7.0)
  }

  lemma ReissueReceivedInv()
    ensures Inv(ReissueReceived())
  {
    ReissueMinedFacts();
    HandleKeepsInv(ReissueMined(), Relayed, 7.0);
  }

  /** Miner 1 is now on the reissued 1003, with its old attempt and a new one both pending. */
  lemma ReissueReceivedFacts()
    ensures var s := ReissueReceived();
            |s.miners| == 2 && s.miners[1].tip == 1003 &&
            StaleAttempt in s.queue && Event(1, true, 18.0, 1003) in s.queue
  {
    ReissueMinedFacts();
    ReissueMinedArena();
    var s2 := ReissueMined();
    assert !Discarded(s2, Relayed);
    var s := Receive(s2, Relayed, 7.0);
    assert ReissueReceived() == s;
    assert RelayEvents(s2.arena, Tips(s2.miners), s2.miners[1].peers, 11.0, 1003) == [];
    assert Relayed.when + 7.0 == 18.0;
    StillPending(s2.queue, Relayed, StaleAttempt, multiset([]), multiset{Event(1, true, 18.0, 1003)});
    Scheduled(s2.queue, Relayed, multiset([]), Event(1, true, 18.0, 1003));
  }

  /**
   * Block ids are reissued. Pruning to 1002 drops the orphan 1003, the next
   * block mined gets id 1003 again, and once miner 1 switches to that block
   * its attempt on the orphan, discarded before, is live again: miner 1 then
   * has two live mining events on 1003, one of them started for another block.
   */
  lemma ReissuedId()
    ensures Inv(ReissueStart()) && Discarded(ReissueStart(), StaleAttempt)
    ensures GetBlock(ReissueStart().arena, 1003) == Block(1000, 1, 1)
    ensures GetBlock(ReissueMined().arena, 1003) == Block(1002, 3, 0)
    ensures var s := ReissueReceived();
            Inv(s) && s.miners[1].tip == 1003 && StaleAttempt in s.queue && !Discarded(s, StaleAttempt) &&
            Event(1, true, 18.0, 1003) in s.queue && Event(1, true, 18.0, 1003) != StaleAttempt
  {
    ReissueStartInv();
    ReissueMinedArena();
    ReissueReceivedInv();
    ReissueReceivedFacts();
  }
}
