/** Taking turns: one element from each list that still has one, round after round; and the greedy
    rule "serve the first of those served least", which turns out to take the same turns. */
module RoundRobin {
  import opened Options

  // ----- the rounds -----

  function Longest<T>(ls: seq<seq<T>>): (n: nat)
    ensures forall l :: l in ls ==> |l| <= n
  {
    if ls == [] then 0
    else if |ls[0]| > Longest(ls[1..]) then |ls[0]| else Longest(ls[1..])
  }

  /** What is still to come when round r has reached list p. */
  function Rest<T>(ls: seq<seq<T>>, r: nat, p: nat): seq<T>
    requires p <= |ls|
    decreases Longest(ls) - r, |ls| - p
  {
    if p < |ls| then
      if r < |ls[p]| then [ls[p][r]] + Rest(ls, r, p + 1) else Rest(ls, r, p + 1)
    else if r + 1 < Longest(ls) then Rest(ls, r + 1, 0)
    else []
  }

  function Merged<T>(ls: seq<seq<T>>): seq<T> { Rest(ls, 0, 0) }

  function Concat<T>(ls: seq<seq<T>>): seq<T> {
    if ls == [] then [] else ls[0] + Concat(ls[1..])
  }

  function Drop<T>(s: seq<T>, n: nat): seq<T> {
    if n <= |s| then s[n..] else []
  }

  /** The elements not yet taken when round r has reached list p, list by list. */
  function LeftOver<T>(ls: seq<seq<T>>, r: nat, p: nat): seq<T> {
    if ls == [] then []
    else Drop(ls[0], if p > 0 then r + 1 else r) + LeftOver(ls[1..], r, if p > 0 then p - 1 else 0)
  }

  lemma {:induction false} LeftOverTurn<T>(ls: seq<seq<T>>, r: nat, p: nat)
    requires p < |ls|
    ensures multiset(LeftOver(ls, r, p)) ==
      multiset(LeftOver(ls, r, p + 1)) + (if r < |ls[p]| then multiset{ls[p][r]} else multiset{})
  {
    if p > 0 {
      LeftOverTurn(ls[1..], r, p - 1);
    } else if r < |ls[0]| {
      assert Drop(ls[0], r) == [ls[0][r]] + Drop(ls[0], r + 1);
    }
  }

  lemma {:induction false} LeftOverRound<T>(ls: seq<seq<T>>, r: nat)
    ensures LeftOver(ls, r, |ls|) == LeftOver(ls, r + 1, 0)
  {
    if ls != [] { LeftOverRound(ls[1..], r); }
  }

  lemma {:induction false} NothingLeft<T>(ls: seq<seq<T>>, r: nat)
    requires forall l :: l in ls ==> |l| <= r
    ensures LeftOver(ls, r, 0) == []
  {
    if ls != [] { NothingLeft(ls[1..], r); }
  }

  lemma {:induction false} AllLeft<T>(ls: seq<seq<T>>)
    ensures LeftOver(ls, 0, 0) == Concat(ls)
  {
    if ls != [] { AllLeft(ls[1..]); }
  }

  lemma {:induction false} RestIsLeftOver<T>(ls: seq<seq<T>>, r: nat, p: nat)
    requires p <= |ls|
    ensures multiset(Rest(ls, r, p)) == multiset(LeftOver(ls, r, p))
    decreases Longest(ls) - r, |ls| - p
  {
    if p < |ls| {
      LeftOverTurn(ls, r, p);
      RestIsLeftOver(ls, r, p + 1);
    } else {
      LeftOverRound(ls, r);
      if r + 1 < Longest(ls) {
        RestIsLeftOver(ls, r + 1, 0);
      } else {
        NothingLeft(ls, r + 1);
      }
    }
  }

  /** Merging loses nothing and repeats nothing. */
  lemma MergedIsPermutation<T>(ls: seq<seq<T>>)
    ensures multiset(Merged(ls)) == multiset(Concat(ls)) && |Merged(ls)| == |Concat(ls)|
  {
    RestIsLeftOver(ls, 0, 0);
    AllLeft(ls);
    assert |multiset(Merged(ls))| == |multiset(Concat(ls))|;
  }

  // ----- the greedy rule -----

  /** Among the first i, the first of those below their capacity with the least count. */
  function PickAmong(caps: seq<nat>, counts: seq<nat>, i: nat): (r: Option<nat>)
    requires |counts| == |caps| && i <= |caps|
    ensures r.Some? ==> r.value < i && counts[r.value] < caps[r.value]
  {
    if i == 0 then None
    else
      var best := PickAmong(caps, counts, i - 1);
      if counts[i - 1] < caps[i - 1] && (best.None? || counts[best.value] > counts[i - 1]) then Some(i - 1) else best
  }

  function Pick(caps: seq<nat>, counts: seq<nat>): (r: Option<nat>)
    requires |counts| == |caps|
    ensures r.Some? ==> r.value < |caps| && counts[r.value] < caps[r.value]
  {
    PickAmong(caps, counts, |caps|)
  }

  lemma {:induction false} PickMeaning(caps: seq<nat>, counts: seq<nat>, i: nat)
    requires |counts| == |caps| && i <= |caps|
    ensures match PickAmong(caps, counts, i)
      case None => forall j :: 0 <= j < i ==> counts[j] >= caps[j]
      case Some(p) =>
        && (forall j :: 0 <= j < i && counts[j] < caps[j] ==> counts[p] <= counts[j])
        && (forall j :: 0 <= j < p && counts[j] < caps[j] ==> counts[p] < counts[j])
  {
    if i > 0 { PickMeaning(caps, counts, i - 1); }
  }

  /** How often each has been served after n calls. */
  function Counts(caps: seq<nat>, n: nat): (c: seq<nat>)
    ensures |c| == |caps|
  {
    if n == 0 then seq(|caps|, _ => 0)
    else
      var before := Counts(caps, n - 1);
      match Pick(caps, before)
      case None => before
      case Some(j) => before[j := before[j] + 1]
  }

  lemma {:induction false} CountsStayBelow(caps: seq<nat>, n: nat, j: nat)
    requires j < |caps|
    ensures Counts(caps, n)[j] <= caps[j]
  {
    if n > 0 { CountsStayBelow(caps, n - 1, j); }
  }

  /** Fairness: no one is two turns ahead of anyone who could still be served. */
  lemma {:induction false} CountsAreFair(caps: seq<nat>, n: nat, i: nat, j: nat)
    requires i < |caps| && j < |caps| && Counts(caps, n)[j] < caps[j]
    ensures Counts(caps, n)[i] <= Counts(caps, n)[j] + 1
  {
    if n > 0 {
      CountsAreFair(caps, n - 1, i, j);
      PickMeaning(caps, Counts(caps, n - 1), |caps|);
    }
  }

  // ----- the greedy rule takes turns -----

  function Lengths<T>(ls: seq<seq<T>>): (sizes: seq<nat>)
    ensures |sizes| == |ls| && forall j :: 0 <= j < |ls| ==> sizes[j] == |ls[j]|
  {
    seq(|ls|, j requires 0 <= j < |ls| => |ls[j]|)
  }

  function Min(a: nat, b: nat): nat { if a < b then a else b }

  /** The counts when round r has reached list p. */
  ghost predicate IsTurn(caps: seq<nat>, c: seq<nat>, r: nat, p: nat) {
    |c| == |caps| && forall j :: 0 <= j < |c| ==> c[j] == Min(caps[j], if j < p then r + 1 else r)
  }

  /** The n-th call of the greedy rule takes x. */
  ghost predicate Takes<T>(ls: seq<seq<T>>, n: nat, x: T) {
    var c := Counts(Lengths(ls), n);
    match Pick(Lengths(ls), c)
    case None => false
    case Some(j) => x == ls[j][c[j]]
  }

  lemma TurnIsPicked(caps: seq<nat>, c: seq<nat>, r: nat, p: nat)
    requires IsTurn(caps, c, r, p) && p < |caps| && r < caps[p]
    ensures Pick(caps, c) == Some(p) && IsTurn(caps, c[p := c[p] + 1], r, p + 1)
  {
    var picked := PickAmong(caps, c, |caps|);
    PickMeaning(caps, c, |caps|);
    assert c[p] == r;
    assert picked.Some?;
  }

  lemma TurnPasses(caps: seq<nat>, c: seq<nat>, r: nat, p: nat)
    requires IsTurn(caps, c, r, p)
    ensures p == |caps| ==> IsTurn(caps, c, r + 1, 0)
    ensures p < |caps| && caps[p] <= r ==> IsTurn(caps, c, r, p + 1)
  {}

  /** After n calls, round r has reached list p. */
  ghost predicate AtTurn<T>(ls: seq<seq<T>>, n: nat, r: nat, p: nat) {
    IsTurn(Lengths(ls), Counts(Lengths(ls), n), r, p)
  }

  lemma TakesItsTurn<T>(ls: seq<seq<T>>, r: nat, p: nat, n: nat)
    requires p < |ls| && r < |ls[p]| && AtTurn(ls, n, r, p)
    ensures Takes(ls, n, ls[p][r]) && AtTurn(ls, n + 1, r, p + 1)
  {
    TurnIsPicked(Lengths(ls), Counts(Lengths(ls), n), r, p);
  }

  /** The next turn that takes an element. */
  lemma {:induction false} SkipToTurn<T>(ls: seq<seq<T>>, c: seq<nat>, r: nat, p: nat) returns (r': nat, p': nat)
    requires p <= |ls| && IsTurn(Lengths(ls), c, r, p) && Rest(ls, r, p) != []
    ensures p' < |ls| && r' < |ls[p']| && IsTurn(Lengths(ls), c, r', p')
    ensures Rest(ls, r, p) == [ls[p'][r']] + Rest(ls, r', p' + 1)
    decreases Longest(ls) - r, |ls| - p
  {
    r', p' := r, p;
    if p == |ls| {
      TurnPasses(Lengths(ls), c, r, p);
      r', p' := SkipToTurn(ls, c, r + 1, 0);
    } else if r >= |ls[p]| {
      TurnPasses(Lengths(ls), c, r, p);
      r', p' := SkipToTurn(ls, c, r, p + 1);
    }
  }

  /** Which turn the m-th call is. */
  lemma {:induction false} FindTurn<T>(ls: seq<seq<T>>, r: nat, p: nat, n: nat, m: nat) returns (r': nat, p': nat)
    requires p <= |ls| && n <= m < n + |Rest(ls, r, p)| && AtTurn(ls, n, r, p)
    ensures p' < |ls| && r' < |ls[p']| && AtTurn(ls, m, r', p') && Rest(ls, r, p)[m - n] == ls[p'][r']
    decreases m - n
  {
    hide Counts, IsTurn, Rest, Lengths;
    r', p' := SkipToTurn(ls, Counts(Lengths(ls), n), r, p);
    if m > n {
      assert AtTurn(ls, n + 1, r', p' + 1) by { TakesItsTurn(ls, r', p', n); }
      r', p' := FindTurn(ls, r', p' + 1, n + 1, m);
    }
  }

  /** The greedy rule and the rounds take the same element at every call. */
  lemma MergedIsGreedy<T>(ls: seq<seq<T>>, n: nat)
    requires n < |Merged(ls)|
    ensures Takes(ls, n, Merged(ls)[n])
  {
    var r, p := FindTurn(ls, 0, 0, 0, n);
    TakesItsTurn(ls, r, p, n);
  }
}
