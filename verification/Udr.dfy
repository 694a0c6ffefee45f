/** The loss detector of unreliable data retrieval: the second instance, with no retransmission allowance. */
module Udr {
  import opened LossDetector

  class UnreliableDataRetrieval {
    var interestsInFlight: int
    var receivedSegments: set<nat>
    var fastRetxSegments: set<nat>
    var requests: seq<nat>  // segments requested again, in order

    ghost predicate Valid()
      reads this
    {
      Settled(receivedSegments, fastRetxSegments)
    }

    constructor ()
      ensures Valid() && receivedSegments == {} && fastRetxSegments == {} && requests == []
    {
      interestsInFlight, receivedSegments, fastRetxSegments, requests := 0, {}, {}, [];
      new;
      RequestedOnce([]);
    }

    method FastRetransmit(s: nat)
      modifies this`interestsInFlight, this`requests
      ensures interestsInFlight == old(interestsInFlight) + 1 && requests == old(requests) + [s]
    {
      interestsInFlight := interestsInFlight + 1;
      requests := requests + [s];
    }

    /** One missing segment against the received ones above it; it is requested when the counter reaches three. */
    method ScanAbove(s: nat, highest: nat)
      requires IsHighest(receivedSegments, highest) && s <= highest && s !in receivedSegments
      requires Above(receivedSegments, s) <= FAST_RETX_CONDITION
      modifies this`interestsInFlight, this`fastRetxSegments, this`requests
      ensures if Above(receivedSegments, s) >= FAST_RETX_CONDITION
        then fastRetxSegments == old(fastRetxSegments) + {s} && requests == old(requests) + [s] &&
             interestsInFlight == old(interestsInFlight) + 1
        else unchanged(this)
    {
      var nOutOfOrderSegments: uint8 := 0;
      BetweenStart(receivedSegments, s);
      var j := s;
      while j <= highest
        invariant s <= j <= highest + 1
        invariant nOutOfOrderSegments as int == Between(receivedSegments, s, j)
        invariant if nOutOfOrderSegments as int >= FAST_RETX_CONDITION
          then fastRetxSegments == old(fastRetxSegments) + {s} && requests == old(requests) + [s] &&
               interestsInFlight == old(interestsInFlight) + 1
          else unchanged(this)
      {
        BetweenNext(receivedSegments, s, j);
        BetweenAtMostAbove(receivedSegments, s, j + 1);
        if j in receivedSegments {
          nOutOfOrderSegments := nOutOfOrderSegments + 1;
          if nOutOfOrderSegments as int == FAST_RETX_CONDITION {
            fastRetxSegments := fastRetxSegments + {s};
            FastRetransmit(s);
          }
        }
        j := j + 1;
      }
      BetweenAll(receivedSegments, s, highest);
    }

    /** Requests exactly the exposed segments, in ascending order; the eight-bit counter never passes three. */
    method CheckFastRetransmissionConditions(segment: nat)
      requires Valid()
      modifies this
      ensures Valid()
      ensures receivedSegments == old(receivedSegments) + {segment}
      ensures fastRetxSegments == MarkedAfter(old(receivedSegments), old(fastRetxSegments), segment)
      ensures requests == old(requests) + Exposed(old(receivedSegments), old(fastRetxSegments), segment)
      ensures interestsInFlight == old(interestsInFlight) + |Exposed(old(receivedSegments), old(fastRetxSegments), segment)|
    {
      receivedSegments := receivedSegments + {segment};
      fastRetxSegments := fastRetxSegments - {segment};
      var highest := HighestOf(receivedSegments);
      ghost var now, kept := receivedSegments, fastRetxSegments;
      HighestIsUnique(now, highest, HighestSpec(now));
      ghost var lost := [];
      var s := 0;
      while s <= highest
        invariant 0 <= s <= highest + 1 && receivedSegments == now && lost == LostBelow(now, kept, s)
        invariant fastRetxSegments == kept + SetOf(lost)
        invariant requests == old(requests) + lost && interestsInFlight == old(interestsInFlight) + |lost|
      {
        if s !in receivedSegments {
          if s !in fastRetxSegments {
            CounterStaysLow(old(receivedSegments), old(fastRetxSegments), segment, s);
            ScanAbove(s, highest);
          }
        }
        lost := if IsLost(now, kept, s) then lost + [s] else lost;
        s := s + 1;
      }
      assert lost == LostBelow(now, kept, highest);
      ArrivalSettles(old(receivedSegments), old(fastRetxSegments), segment);
    }
  }

  /** A whole life of arrivals: the detector does what the history says. */
  method Watch(arrivals: seq<nat>) returns (requested: seq<nat>)
    ensures requested == Lifetime(arrivals).requested
  {
    var udr := new UnreliableDataRetrieval();
    assert arrivals[..0] == [];
    for n := 0 to |arrivals|
      invariant fresh(udr) && udr.Valid()
      invariant History(udr.receivedSegments, udr.fastRetxSegments, udr.requests) == Lifetime(arrivals[..n])
    {
      assert arrivals[..n + 1][..n] == arrivals[..n];
      udr.CheckFastRetransmissionConditions(arrivals[n]);
    }
    assert arrivals[..|arrivals|] == arrivals;
    requested := udr.requests;
  }
}
