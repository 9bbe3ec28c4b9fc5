/**
 * The simulator's main loop: for each repetition, prune if every miner is on
 * the same block, pop an earliest event and handle it. The solve time of the
 * mining attempt an iteration may start is supplied per repetition.
 */
module MainLoop {
  import opened BlockArena
  import opened EventQueue
  import opened Ledger
  import opened Sim

  /**
   * Runs `|solves|` repetitions from `s0`. The invariant holds throughout;
   * the miner set is fixed; the deepest reorg and the total credit never
   * decrease; no miner's credit or mined count ever decreases, and none is
   * ever credited with more blocks than it mined; and
   * when every delay and solve time is non-negative the clock never runs
   * backwards.
   */
  method Simulate(s0: State, solves: seq<real>) returns (s: State)
    requires Inv(s0)
    ensures Inv(s) && |s.miners| == |s0.miners|
    ensures s.maxReorg >= s0.maxReorg
    ensures TotalCredit(s.miners) >= TotalCredit(s0.miners)
    ensures forall mi :: 0 <= mi < |s.miners| ==> 0 <= s.miners[mi].credit <= s.miners[mi].mined
    ensures forall mi :: 0 <= mi < |s0.miners| ==>
              s0.miners[mi].credit <= s.miners[mi].credit && s0.miners[mi].mined <= s.miners[mi].mined
    ensures ClockOk(s0) && (forall i :: 0 <= i < |solves| ==> 0.0 <= solves[i]) ==>
              ClockOk(s) && s0.time <= s.time
  {
    ghost var timely := ClockOk(s0) && forall i :: 0 <= i < |solves| ==> 0.0 <= solves[i];
    s := s0;
    var rep := 0;
    while rep < |solves|
      invariant 0 <= rep <= |solves|
      invariant Inv(s) && |s.miners| == |s0.miners|
      invariant s.maxReorg >= s0.maxReorg
      invariant CountersGrow(s0.miners, s.miners)
      invariant timely ==> ClockOk(s) && s0.time <= s.time
    {
      PruneKeepsInv(s);
      PruneRaisesBase(s);
      if timely {
        PruneKeepsClock(s);
      }
      CountersGrowTrans(s0.miners, s.miners, Prune(s).miners);
      s := Prune(s);
      QueueNonEmpty(s);
      var ev, _ := PopEarliest(s.queue);
      HandleKeepsInv(s, ev, solves[rep]);
      if timely {
        HandleKeepsClock(s, ev, solves[rep]);
      }
      CountersGrowTrans(s0.miners, s.miners, Handle(s, ev, solves[rep]).miners);
      s := Handle(s, ev, solves[rep]);
      rep := rep + 1;
    }
    CreditBounded(s);
    CountersGrowTotal(s0.miners, s.miners);
  }
}
