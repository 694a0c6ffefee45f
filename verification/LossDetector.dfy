/** Loss detection by out-of-order arrival: a missing segment with three received ones above it is
    taken for lost and requested again, once.  Both retrieval protocols run this detector. */
module LossDetector {
  import opened Lists

  const FAST_RETX_CONDITION: nat := 3

  /** The counter type of the source. */
  newtype uint8 = x: int | 0 <= x < 256

  /** How many received segments are above segment i. */
  ghost function Above(received: set<nat>, i: nat): nat {
    |set j | j in received && j > i|
  }

  ghost predicate IsLost(received: set<nat>, marked: set<nat>, i: nat) {
    i !in received && i !in marked && Above(received, i) >= FAST_RETX_CONDITION
  }

  /** The lost segments below n, in ascending order. */
  ghost function LostBelow(received: set<nat>, marked: set<nat>, n: nat): (lost: seq<nat>)
    ensures forall i: nat :: i in lost <==> i < n && IsLost(received, marked, i)
    ensures forall j, k :: 0 <= j < k < |lost| ==> lost[j] < lost[k]
  {
    if n == 0 then []
    else
      var rest := LostBelow(received, marked, n - 1);
      assert forall j :: 0 <= j < |rest| ==> rest[j] in rest;
      if IsLost(received, marked, n - 1) then rest + [n - 1] else rest
  }

  ghost function SetOf(s: seq<nat>): set<nat> {
    set i | i in s
  }

  ghost predicate IsHighest(received: set<nat>, h: nat) {
    h in received && forall j :: j in received ==> j <= h
  }

  /** The key of the last element of the source's ordered map. */
  method HighestOf(received: set<nat>) returns (h: nat)
    requires received != {}
    ensures IsHighest(received, h)
  {
    h :| h in received;
    var rest := received - {h};
    while rest != {}
      invariant rest <= received && h in received
      invariant forall j :: j in received && j !in rest ==> j <= h
      decreases rest
    {
      var j :| j in rest;
      if j > h { h := j; }
      rest := rest - {j};
    }
  }

  ghost function HighestSpec(received: set<nat>): (h: nat)
    requires received != {}
    ensures IsHighest(received, h)
  {
    HighestExists(received);
    var h :| IsHighest(received, h);
    h
  }

  lemma HighestExists(received: set<nat>)
    requires received != {}
    ensures exists h :: IsHighest(received, h)
  {
    var x :| x in received;
    if received != {x} {
      HighestExists(received - {x});
      var h :| IsHighest(received - {x}, h);
      assert received == (received - {x}) + {x};
      assert IsHighest(received, if h > x then h else x);
    } else {
      assert IsHighest(received, x);
    }
  }

  /** Past the highest received segment nothing is lost. */
  lemma NothingLostAbove(received: set<nat>, marked: set<nat>, n: nat, m: nat)
    requires n <= m && forall j :: j in received ==> j <= n
    ensures LostBelow(received, marked, m) == LostBelow(received, marked, n)
  {
    if n < m {
      assert (set j | j in received && j > m - 1) == {};
      NothingLostAbove(received, marked, n, m - 1);
    }
  }

  // ----- the scanning loops -----

  /** What the inner loop has counted for segment i when it reaches j. */
  ghost function Between(received: set<nat>, i: nat, j: nat): nat {
    |set k | k in received && i < k < j|
  }

  lemma BetweenStart(received: set<nat>, i: nat)
    ensures Between(received, i, i) == 0
  {
    assert (set k | k in received && i < k < i) == {};
  }

  lemma BetweenNext(received: set<nat>, i: nat, j: nat)
    requires i !in received && i <= j
    ensures Between(received, i, j + 1) == Between(received, i, j) + if j in received then 1 else 0
  {
    var before := set k | k in received && i < k < j;
    assert (set k | k in received && i < k < j + 1) == if j in received then before + {j} else before;
  }

  lemma BetweenAtMostAbove(received: set<nat>, i: nat, j: nat)
    ensures Between(received, i, j) <= Above(received, i)
  {
    var low, high := set k | k in received && i < k < j, set k | k in received && k > i;
    assert low + (high - low) == high;
  }

  lemma BetweenAll(received: set<nat>, i: nat, highest: nat)
    requires IsHighest(received, highest)
    ensures Between(received, i, highest + 1) == Above(received, i)
  {
    assert (set k | k in received && i < k < highest + 1) == set k | k in received && k > i;
  }

  lemma HighestIsUnique(received: set<nat>, g: nat, h: nat)
    requires IsHighest(received, g) && IsHighest(received, h)
    ensures g == h
  {}

  /** The segments one arrival exposes as lost: those below the highest received segment. */
  ghost function Exposed(received: set<nat>, marked: set<nat>, segment: nat): seq<nat> {
    var now := received + {segment};
    LostBelow(now, marked - {segment}, HighestSpec(now))
  }

  ghost function MarkedAfter(received: set<nat>, marked: set<nat>, segment: nat): set<nat> {
    marked - {segment} + SetOf(Exposed(received, marked, segment))
  }

  /** Between calls, every missing unmarked segment has fewer than three received segments above it. */
  ghost predicate Settled(received: set<nat>, marked: set<nat>) {
    forall i: nat :: i !in received && i !in marked ==> Above(received, i) < FAST_RETX_CONDITION
  }

  lemma OneMoreAbove(received: set<nat>, segment: nat, i: nat)
    ensures Above(received, i) <= Above(received + {segment}, i) <= Above(received, i) + 1
  {
    var before := set j | j in received && j > i;
    var after := set j | j in received + {segment} && j > i;
    assert after == before || after == before + {segment};
  }

  /** The counter reaches three at most: during a call no missing unmarked segment has more received ones above it. */
  lemma CounterStaysLow(received: set<nat>, marked: set<nat>, segment: nat, i: nat)
    requires Settled(received, marked)
    requires i !in received + {segment} && i !in marked - {segment}
    ensures Above(received + {segment}, i) <= FAST_RETX_CONDITION
  {
    OneMoreAbove(received, segment, i);
  }

  lemma ArrivalSettles(received: set<nat>, marked: set<nat>, segment: nat)
    ensures Settled(received + {segment}, MarkedAfter(received, marked, segment))
  {
    var now := received + {segment};
    var h := HighestSpec(now);
    forall i: nat | i !in now && i !in MarkedAfter(received, marked, segment) ensures Above(now, i) < FAST_RETX_CONDITION {
      if i >= h {
        assert (set j | j in now && j > i) == {};
      }
    }
  }

  /** Three received segments above this one. */
  predicate ThreeAbove(received: set<nat>, i: nat, a: nat, b: nat, c: nat) {
    i < a < b < c && a in received && b in received && c in received
  }

  lemma AtLeastThree(s: set<nat>, a: nat, b: nat, c: nat)
    requires a in s && b in s && c in s && a < b < c
    ensures |s| >= 3
  {
    var rest := s - {a, b, c};
    assert s == rest + {a, b, c};
  }

  lemma ThreeAboveIff(received: set<nat>, i: nat)
    ensures Above(received, i) >= 3 <==> exists a, b, c :: ThreeAbove(received, i, a, b, c)
  {
    var above := set j | j in received && j > i;
    if |above| >= 3 {
      var x :| x in above;
      assert |above - {x}| >= 2;
      var y :| y in above - {x};
      assert |above - {x} - {y}| >= 1;
      var z :| z in above - {x} - {y};
      InSomeOrder(received, i, x, y, z);
    }
    if a, b, c :| ThreeAbove(received, i, a, b, c) {
      AtLeastThree(above, a, b, c);
    }
  }

  lemma InSomeOrder(received: set<nat>, i: nat, x: nat, y: nat, z: nat)
    requires x in received && y in received && z in received && i < x && i < y && i < z
    requires x != y && y != z && x != z
    ensures exists a, b, c :: ThreeAbove(received, i, a, b, c)
  {
    var low, high := if x < y then x else y, if x < y then y else x;
    assert if z < low then ThreeAbove(received, i, z, low, high)
      else if z < high then ThreeAbove(received, i, low, z, high) else ThreeAbove(received, i, low, high, z);
  }

  /** A segment is taken for lost at an arrival if and only if it is missing, was not taken for lost before, and three
      received segments, the new one included, are above it. */
  lemma ExposedIff(received: set<nat>, marked: set<nat>, segment: nat, i: nat)
    ensures i in Exposed(received, marked, segment) <==>
      i !in received && i != segment && i !in marked &&
      exists a, b, c :: ThreeAbove(received + {segment}, i, a, b, c)
  {
    var now := received + {segment};
    ThreeAboveIff(now, i);
    var highest := HighestSpec(now);
    if a, b, c :| ThreeAbove(now, i, a, b, c) { assert i < highest; }
  }

  // ----- a lifetime of arrivals -----

  datatype History = History(received: set<nat>, marked: set<nat>, requested: seq<nat>)

  ghost function Lifetime(arrivals: seq<nat>): History {
    if arrivals == [] then History({}, {}, [])
    else
      var h := Lifetime(arrivals[..|arrivals| - 1]);
      var segment := arrivals[|arrivals| - 1];
      History(h.received + {segment}, MarkedAfter(h.received, h.marked, segment),
              h.requested + Exposed(h.received, h.marked, segment))
  }

  /** Whatever arrives in whatever order: after every arrival no missing unmarked segment has three received ones
      above it, and no segment is ever fast-retransmitted twice. */
  lemma {:induction false} RequestedOnce(arrivals: seq<nat>)
    ensures var h := Lifetime(arrivals);
      && Settled(h.received, h.marked)
      && NoRepeats(h.requested)
      && forall i :: i in h.requested ==> i in h.received || i in h.marked
  {
    if arrivals == [] {
      forall i: nat ensures Above({}, i) == 0 {
        var none: set<nat> := {};
        assert (set j | j in none && j > i) == {};
      }
    } else {
      var h := Lifetime(arrivals[..|arrivals| - 1]);
      var segment := arrivals[|arrivals| - 1];
      RequestedOnce(arrivals[..|arrivals| - 1]);
      ArrivalSettles(h.received, h.marked, segment);
      var exposed := Exposed(h.received, h.marked, segment);
      var everything := h.requested + exposed;
      forall j, k | 0 <= j < k < |everything| ensures everything[j] != everything[k] {
        if j < |h.requested| <= k {
          assert everything[j] in h.requested && everything[k] in exposed;
        }
      }
    }
  }
}
