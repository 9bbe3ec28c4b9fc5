/**
 * The event scheduler: a collection of pending events from which the loop
 * always takes one with the smallest time. Ties are not broken in any fixed
 * way, so the pop is a choice among the earliest events.
 */
module EventQueue {

  /**
   * A block arriving at miner `to` at time `when`: from its own mining
   * (`mining`, and `bid` is the block it was mining on) or from a peer
   * (`bid` is the relayed block).
   */
  datatype Event = Event(to: int, mining: bool, when: real, bid: int)

  /** `ev` is pending and no pending event is due before it. */
  predicate IsEarliest(ev: Event, q: multiset<Event>)
  {
    ev in q && forall e :: e in q ==> ev.when <= e.when
  }

  /** A non-empty queue has a pending event. */
  lemma SomePending(q: multiset<Event>)
    requires q != multiset{}
    ensures exists e :: e in q
  {
    if forall e :: e !in q {
      NonePendingIsEmpty(q);
    }
  }

  /** A queue with no pending event is empty. */
  lemma NonePendingIsEmpty(q: multiset<Event>)
    requires forall e :: e !in q
    ensures q == multiset{}
  {
    assert forall e :: q[e] == multiset{}[e];
  }

  /** Handling `ev` leaves every other pending event pending, whatever is scheduled. */
  lemma StillPending(q: multiset<Event>, ev: Event, e: Event, a: multiset<Event>, b: multiset<Event>)
    requires e in q && e != ev
    ensures e in q - multiset{ev} + a + b
  {
  }

  /** An event scheduled while handling `ev` is pending afterwards. */
  lemma Scheduled(q: multiset<Event>, ev: Event, a: multiset<Event>, e: Event)
    ensures e in q - multiset{ev} + a + multiset{e}
  {
  }

  /** A non-empty queue always has an earliest event. */
  lemma {:induction false} EarliestExists(q: multiset<Event>)
    requires q != multiset{}
    ensures exists ev :: IsEarliest(ev, q)
    decreases |q|
  {
    SomePending(q);
    var x :| x in q;
    var rest := q - multiset{x};
    if rest == multiset{} {
      forall e | e in q ensures x.when <= e.when {
        assert e == x || e in rest;
      }
      assert IsEarliest(x, q);
    } else {
      EarliestExists(rest);
      var y :| IsEarliest(y, rest);
      assert y in q;
      if x.when <= y.when {
        forall e | e in q ensures x.when <= e.when {
          assert e == x || e in rest;
        }
        assert IsEarliest(x, q);
      } else {
        forall e | e in q ensures y.when <= e.when {
          assert e == x || e in rest;
        }
        assert IsEarliest(y, q);
      }
    }
  }

  /** The scheduler's pop: some earliest event, and the queue without one copy of it. */
  method PopEarliest(q: multiset<Event>) returns (ev: Event, rest: multiset<Event>)
    requires q != multiset{}
    ensures IsEarliest(ev, q)
    ensures rest == q - multiset{ev} && |rest| + 1 == |q|
  {
    EarliestExists(q);
    ev :| IsEarliest(ev, q);
    rest := q - multiset{ev};
  }
}
