/** Child selection over the bottom layer, seen as a sequence of packets sorted by full name. */
module SelectSpec {
  import opened Names
  import opened Options
  import opened StoreSpec

  ghost predicate SortedData(ds: seq<Data>) {
    forall j, k :: 0 <= j < k < |ds| ==> NameLess(FullName(ds[j]), FullName(ds[k]))
  }

  /** s is the last packet before the Interest name, or 0 when the first packet is not before it. */
  ghost predicate StartsAt(i: Interest, ds: seq<Data>, s: nat) {
    && s < |ds|
    && (s > 0 ==> NameLess(FullName(ds[s]), i.name))
    && (forall k :: s < k < |ds| ==> !NameLess(FullName(ds[k]), i.name))
  }

  /** Packets strictly before the starting point cannot match. */
  lemma BeforeStart(i: Interest, ds: seq<Data>, s: nat)
    requires SortedData(ds) && StartsAt(i, ds, s)
    ensures forall k :: 0 <= k < s ==> !Satisfies(i, ds[k])
    ensures s > 0 ==> !(i.name <= FullName(ds[s]))
  {
    forall k | 0 <= k < s ensures !Satisfies(i, ds[k]) {
      NameTransitive(FullName(ds[k]), FullName(ds[s]), i.name);
      BeforePrefix(i.name, FullName(ds[k]));
    }
    if s > 0 { BeforePrefix(i.name, FullName(ds[s])); }
  }

  /** Once the scan has left the prefix, no later packet matches. */
  lemma AfterPrefix(i: Interest, ds: seq<Data>, s: nat, k: nat)
    requires SortedData(ds) && StartsAt(i, ds, s) && s < k
    requires k < |ds| ==> !(i.name <= FullName(ds[k]))
    ensures forall m :: k <= m < |ds| ==> !Satisfies(i, ds[m])
  {
    forall m | k <= m < |ds| ensures !Satisfies(i, ds[m]) {
      if k < m { PastPrefix(i.name, FullName(ds[k]), FullName(ds[m])); }
    }
  }

  /** The first satisfying packet in name order is the least one. */
  lemma FirstIsLeast(i: Interest, ds: seq<Data>, k: nat)
    requires SortedData(ds) && k < |ds| && Satisfies(i, ds[k])
    requires forall j :: 0 <= j < k ==> !Satisfies(i, ds[j])
    ensures IsLeast(i, ds, Some(ds[k]))
  {}

  lemma ChildrenAreSorted(i: Interest, ds: seq<Data>, j: nat, k: nat)
    requires SortedData(ds) && j <= k < |ds|
    ensures !NameLess(Child(i, ds[k]), Child(i, ds[j]))
  {
    if j < k {
      TruncationMonotone(FullName(ds[j]), FullName(ds[k]), |i.name| + 1);
    } else {
      NameOrder(Child(i, ds[k]), Child(i, ds[j]));
    }
  }

  /** Below the Interest name, children are compared by their last component. */
  lemma ChildOrder(i: Interest, x: Data, d: Data)
    requires i.name <= FullName(x) && i.name <= FullName(d)
    ensures var m, n, k := FullName(x), FullName(d), |i.name|;
      NameLess(Child(i, x), Child(i, d)) <==> |n| > k && (|m| == k || ComponentLess(m[k], n[k]))
  {
    var m, n, k := FullName(x), FullName(d), |i.name|;
    var a, b := Child(i, x), Child(i, d);
    NameOrderMeaning(a, b);
    ComponentLessIsStrictTotal();
    assert FirstDiffer(a, b, k) <==> |n| > k && (|m| == k || ComponentLess(m[k], n[k]));
    assert forall j: nat :: j < k ==> a[j] == i.name[j] && b[j] == i.name[j];
    assert forall j: nat :: FirstDiffer(a, b, j) ==> j == k;
  }

  /** What rightmost selection returns from starting point s: the leftmost packet of the rightmost child among
      the packets after s, and the packet at s itself only when it is the only one. */
  ghost predicate IsRightmostFrom(i: Interest, ds: seq<Data>, s: nat, r: Option<Data>)
    requires s < |ds|
  {
    match r
    case None => forall d :: d in ds ==> !Satisfies(i, d)
    case Some(x) =>
      && InRightmostChild(i, ds, x)
      && (forall d :: d in ds && Satisfies(i, d) && Child(i, d) == Child(i, x) && d != x && d != ds[s] ==>
          NameLess(FullName(x), FullName(d)))
      && (x == ds[s] ==> forall d :: d in ds && Satisfies(i, d) ==> d == x)
  }

  /** The walk of rightmost selection after k packets: m is the first satisfying packet of the last child seen. */
  ghost predicate RightmostSoFar(i: Interest, ds: seq<Data>, s: nat, k: nat, m: nat) {
    && s <= m < k <= |ds|
    && (m == s ==> forall j :: s < j < k ==> !Satisfies(i, ds[j]))
    && (m > s ==> Satisfies(i, ds[m]))
    && (m > s ==> forall j :: s < j < m && Satisfies(i, ds[j]) ==> Child(i, ds[j]) != Child(i, ds[m]))
    && (m > s ==> forall j :: m < j < k && Satisfies(i, ds[j]) ==> Child(i, ds[j]) == Child(i, ds[m]))
  }

  lemma RightmostStep(i: Interest, ds: seq<Data>, s: nat, k: nat, m: nat)
    requires SortedData(ds) && RightmostSoFar(i, ds, s, k, m) && k < |ds|
    ensures RightmostSoFar(i, ds, s, k + 1,
              if Satisfies(i, ds[k]) && (m == s || Child(i, ds[k]) != Child(i, ds[m])) then k else m)
  {
    if Satisfies(i, ds[k]) && m > s && Child(i, ds[k]) != Child(i, ds[m]) {
      forall j | s < j < k && Satisfies(i, ds[j]) ensures Child(i, ds[j]) != Child(i, ds[k]) {
        if j < m {
          ChildrenAreSorted(i, ds, j, m);
          ChildrenAreSorted(i, ds, m, k);
          NameOrder(Child(i, ds[j]), Child(i, ds[m]));
        }
      }
    }
  }

  lemma RightmostEnd(i: Interest, ds: seq<Data>, s: nat, k: nat, m: nat)
    requires SortedData(ds) && StartsAt(i, ds, s) && RightmostSoFar(i, ds, s, k, m)
    requires k < |ds| ==> !(i.name <= FullName(ds[k]))
    ensures m > s ==> IsRightmostFrom(i, ds, s, Some(ds[m]))
    ensures m == s && Satisfies(i, ds[s]) ==> IsRightmostFrom(i, ds, s, Some(ds[s]))
    ensures m == s && !Satisfies(i, ds[s]) ==> IsRightmostFrom(i, ds, s, None)
  {
    BeforeStart(i, ds, s);
    AfterPrefix(i, ds, s, k);
    if m > s {
      NameOrder(FullName(ds[m]), FullName(ds[m]));
      forall d | d in ds && Satisfies(i, d)
        ensures !NameLess(Child(i, ds[m]), Child(i, d))
        ensures Child(i, d) == Child(i, ds[m]) && d != ds[m] && d != ds[s] ==> NameLess(FullName(ds[m]), FullName(d))
      {
        var j :| 0 <= j < |ds| && ds[j] == d;
        if j <= m {
          ChildrenAreSorted(i, ds, j, m);
        } else {
          NameOrder(Child(i, ds[m]), Child(i, d));
        }
      }
      assert ds[m] != ds[s];
    } else if Satisfies(i, ds[s]) {
      NameOrder(Child(i, ds[s]), Child(i, ds[s]));
    }
  }

  /** f comes first in name order. */
  ghost predicate IsFirst(ds: seq<Data>, f: Data) {
    f in ds && forall d :: d in ds && d != f ==> NameLess(FullName(f), FullName(d))
  }

  /** The store's first packet matches, another one does too, and no match has a greater child. */
  ghost predicate FirstIsSkipped(i: Interest, ds: seq<Data>) {
    exists f :: IsFirst(ds, f) && IsSkipped(i, ds, f)
  }

  ghost predicate IsSkipped(i: Interest, ds: seq<Data>, f: Data) {
    && Satisfies(i, f)
    && (exists d :: d in ds && Satisfies(i, d) && d != f)
    && (forall d :: d in ds && Satisfies(i, d) ==> !NameLess(Child(i, f), Child(i, d)))
  }

  lemma HeadIsFirst(ds: seq<Data>)
    requires SortedData(ds) && ds != []
    ensures IsFirst(ds, ds[0])
    ensures forall f :: IsFirst(ds, f) ==> f == ds[0]
  {
    forall d | d in ds && d != ds[0] ensures NameLess(FullName(ds[0]), FullName(d)) {
      var k :| 0 <= k < |ds| && ds[k] == d;
    }
    forall f | IsFirst(ds, f) ensures f == ds[0] {
      NameOrder(FullName(f), FullName(ds[0]));
    }
  }

  /** Rightmost selection returns the leftmost entry of the rightmost child, as documented, except exactly when
      the walk starts on the very packet that should be returned. */
  lemma RightmostIsDocumentedIff(i: Interest, ds: seq<Data>, s: nat, r: Option<Data>)
    requires SortedData(ds) && StartsAt(i, ds, s) && IsRightmostFrom(i, ds, s, r)
    ensures IsLeftmostOfRightmostChild(i, ds, r) <==> !FirstIsSkipped(i, ds)
  {
    BeforeStart(i, ds, s);
    HeadIsFirst(ds);
    if r.Some? {
      var x := r.value;
      if IsSkipped(i, ds, ds[0]) {
        assert s == 0;
        assert x != ds[0];
        NameOrder(Child(i, x), Child(i, ds[0]));
        assert Child(i, x) == Child(i, ds[0]);
        NameOrder(FullName(ds[0]), FullName(x));
      } else {
        forall d | d in ds && Satisfies(i, d) && Child(i, d) == Child(i, x) && d != x
          ensures NameLess(FullName(x), FullName(d))
        {
          assert d == ds[s] ==> s == 0;
        }
      }
    }
  }

  ghost predicate SameMembers(a: seq<Data>, b: seq<Data>) {
    forall d :: d in a <==> d in b
  }

  /** None of this depends on the order in which the packets are listed. */
  lemma ListingDoesNotMatter(i: Interest, a: seq<Data>, b: seq<Data>, r: Option<Data>)
    requires SameMembers(a, b)
    ensures IsLeast(i, a, r) <==> IsLeast(i, b, r)
    ensures IsLeftmostOfRightmostChild(i, a, r) <==> IsLeftmostOfRightmostChild(i, b, r)
    ensures r.Some? ==> (InRightmostChild(i, a, r.value) <==> InRightmostChild(i, b, r.value))
    ensures FirstIsSkipped(i, a) <==> FirstIsSkipped(i, b)
  {
    assert forall f :: IsFirst(a, f) <==> IsFirst(b, f);
    assert forall f :: IsSkipped(i, a, f) <==> IsSkipped(i, b, f);
  }

  lemma HitIsSatisfies(i: Interest, d: Data)
    requires !DigestShaped(i)
    ensures Hit(i, d) <==> Satisfies(i, d)
    ensures InPrefix(i, d) <==> i.name <= FullName(d)
    ensures !RecognizesDigest(i, FullName(d))
  {}

  // ----- the two walks, for Interests that may or may not look like they carry a digest -----

  ghost predicate NoneBefore(i: Interest, ds: seq<Data>, s: nat, k: nat) {
    && k <= |ds| && (forall j :: s <= j < k ==> !Hit(i, ds[j]))
    && (!DigestShaped(i) ==> forall j :: 0 <= j < k ==> !Satisfies(i, ds[j]))
  }

  lemma NoneBeforeStep(i: Interest, ds: seq<Data>, s: nat, k: nat)
    requires NoneBefore(i, ds, s, k) && k < |ds| && !Hit(i, ds[k])
    ensures NoneBefore(i, ds, s, k + 1)
  {
    if !DigestShaped(i) { HitIsSatisfies(i, ds[k]); }
  }

  /** A packet that is asked for by its full name is the answer. */
  ghost predicate IsExact(i: Interest, ds: seq<Data>, r: Option<Data>) {
    forall d :: d in ds && FullName(d) == i.name && Hit(i, d) ==> r == Some(d)
  }

  lemma Sorted(ds: seq<Data>, j: nat, k: nat)
    requires SortedData(ds) && j < k < |ds|
    ensures NameLess(FullName(ds[j]), FullName(ds[k]))
  {}

  /** The packet whose full name is the Interest name is the starting point or the next one. */
  lemma ExactIsNext(i: Interest, ds: seq<Data>, s: nat, e: nat)
    requires SortedData(ds) && StartsAt(i, ds, s) && e < |ds| && FullName(ds[e]) == i.name
    ensures (e == s || e == s + 1) && (e == s + 1 ==> !Hit(i, ds[s]))
  {
    NameOrder(i.name, i.name);
    if e < s { NameTransitive(FullName(ds[e]), FullName(ds[s]), i.name); }
    if s + 1 < e { Sorted(ds, s + 1, e); }
    if e == s + 1 {
      BeforePrefix(i.name, FullName(ds[s]));
      SameDigestSameName(i, ds[s]);
    }
  }

  lemma SameDigestSameName(i: Interest, d: Data)
    requires i.name != [] && i.name[|i.name| - 1] == Component(GENERIC_COMPONENT, i.name[|i.name| - 1].value)
    ensures Hit(i, d) ==> i.name <= FullName(d)
  {
    if Hit(i, d) && RecognizesDigest(i, FullName(d)) {
      var n := FullName(d);
      assert n[..|n| - 1] == i.name[..|n| - 1] && n[|n| - 1] == i.name[|n| - 1];
      assert n == n[..|n| - 1] + [n[|n| - 1]] && i.name == i.name[..|n| - 1] + [i.name[|n| - 1]];
    }
  }

  /** A leftmost walk that stops at k returns the packet there if it is a hit, and otherwise nothing. */
  lemma LeftmostEnd(i: Interest, ds: seq<Data>, s: nat, k: nat)
    requires SortedData(ds) && StartsAt(i, ds, s) && NoneBefore(i, ds, s, k) && s <= k
    requires k < |ds| && !Hit(i, ds[k]) ==> s < k && !InPrefix(i, ds[k])
    ensures var r := if k < |ds| && Hit(i, ds[k]) then Some(ds[k]) else None;
      IsExact(i, ds, r) && (!DigestShaped(i) ==> IsLeast(i, ds, r))
  {
    if !DigestShaped(i) {
      if k < |ds| { HitIsSatisfies(i, ds[k]); }
      if k < |ds| && Hit(i, ds[k]) {
        FirstIsLeast(i, ds, k);
      } else {
        AfterPrefix(i, ds, s, k);
      }
    }
    forall d | d in ds && FullName(d) == i.name && Hit(i, d)
      ensures k < |ds| && Hit(i, ds[k]) && ds[k] == d
    {
      var e :| 0 <= e < |ds| && ds[e] == d;
      ExactIsNext(i, ds, s, e);
    }
  }

  ghost predicate Walked(i: Interest, ds: seq<Data>, s: nat, k: nat, m: nat, childPrefix: Name) {
    && s <= m < k <= |ds|
    && (m > s ==> Hit(i, ds[m]))
    && (!DigestShaped(i) ==> RightmostSoFar(i, ds, s, k, m) && childPrefix == if m == s then [] else Child(i, ds[m]))
  }

  /** The child prefix the walk compares: one component longer than the Interest name (without digest). */
  function ChildSeen(i: Interest, n: Name): Name {
    Truncate(n, if RecognizesDigest(i, n) then |i.name| else |i.name| + 1)
  }

  /** A hit in a new child becomes the candidate. */
  predicate IsTaken(i: Interest, d: Data, childPrefix: Name) {
    Hit(i, d) && (childPrefix == [] || ChildSeen(i, FullName(d)) != childPrefix)
  }

  /** One step of the rightmost walk. */
  lemma WalkedStep(i: Interest, ds: seq<Data>, s: nat, k: nat, m: nat, childPrefix: Name)
    requires SortedData(ds) && Walked(i, ds, s, k, m, childPrefix) && k < |ds|
    ensures IsTaken(i, ds[k], childPrefix) ==> Walked(i, ds, s, k + 1, k, ChildSeen(i, FullName(ds[k])))
    ensures !IsTaken(i, ds[k], childPrefix) ==> Walked(i, ds, s, k + 1, m, childPrefix)
  {
    if !DigestShaped(i) {
      HitIsSatisfies(i, ds[k]);
      RightmostStep(i, ds, s, k, m);
    }
  }

  lemma WalkedEnd(i: Interest, ds: seq<Data>, s: nat, k: nat, m: nat, childPrefix: Name)
    requires SortedData(ds) && StartsAt(i, ds, s) && Walked(i, ds, s, k, m, childPrefix)
    requires k < |ds| ==> !InPrefix(i, ds[k])
    ensures !DigestShaped(i) ==>
      IsRightmostFrom(i, ds, s, if m > s then Some(ds[m]) else if Hit(i, ds[s]) then Some(ds[s]) else None)
  {
    if !DigestShaped(i) {
      HitIsSatisfies(i, ds[s]);
      if k < |ds| { HitIsSatisfies(i, ds[k]); }
      RightmostEnd(i, ds, s, k, m);
    }
  }

  /** What find answers. */
  ghost predicate IsAnswer(i: Interest, ds: seq<Data>, r: Option<Data>) {
    && (r.Some? ==> r.value in ds && Hit(i, r.value))
    && (Leftmost(i) ==> IsExact(i, ds, r))
    && (!DigestShaped(i) && Leftmost(i) ==> IsLeast(i, ds, r))
    && (!DigestShaped(i) && !Leftmost(i) ==>
        && (r.None? <==> forall d :: d in ds ==> !Satisfies(i, d))
        && (r.Some? ==> InRightmostChild(i, ds, r.value))
        && (IsLeftmostOfRightmostChild(i, ds, r) <==> !FirstIsSkipped(i, ds)))
  }

  lemma RightmostAnswers(i: Interest, ds: seq<Data>, s: nat, r: Option<Data>)
    requires SortedData(ds) && StartsAt(i, ds, s) && !Leftmost(i)
    requires r.Some? ==> r.value in ds && Hit(i, r.value)
    requires !DigestShaped(i) ==> IsRightmostFrom(i, ds, s, r)
    ensures IsAnswer(i, ds, r)
  {
    if !DigestShaped(i) { RightmostIsDocumentedIff(i, ds, s, r); }
  }

  lemma NothingAnswers(i: Interest, ds: seq<Data>)
    requires forall j :: 0 <= j < |ds| ==> !(i.name <= FullName(ds[j]))
    ensures IsAnswer(i, ds, None)
  {
    forall d | d in ds ensures !Satisfies(i, d) {
      var j :| 0 <= j < |ds| && ds[j] == d;
    }
  }

  lemma AnswerInAnyListing(i: Interest, a: seq<Data>, b: seq<Data>, r: Option<Data>)
    requires SameMembers(a, b) && IsAnswer(i, a, r)
    ensures IsAnswer(i, b, r)
  {
    ListingDoesNotMatter(i, a, b, r);
  }

  lemma LeftmostAnswerIsLinear(i: Interest, ds: seq<Data>, r: Option<Data>)
    requires DistinctNames(ds) && IsAnswer(i, ds, r) && !DigestShaped(i) && Leftmost(i)
    ensures r == LinearFind(i, ds)
  {
    LinearFindIsLeast(i, ds);
    LeastIsUnique(i, ds, r, LinearFind(i, ds));
  }

  /** Two versions of the same packet name, asked for with the empty Interest name and rightmost selection:
      the walk skips the first one. */
  lemma RightmostSkipsTheFirst() returns (i: Interest, ds: seq<Data>)
    ensures SortedData(ds) && !DigestShaped(i) && |ds| == 2 && FirstIsSkipped(i, ds)
    ensures IsRightmostFrom(i, ds, 0, Some(ds[1])) && !IsLeftmostOfRightmostChild(i, ds, Some(ds[1]))
  {
    var name := [Component(GENERIC_COMPONENT, [65])];
    var low: Digest, high: Digest := seq(DIGEST_SIZE, _ => 0), seq(DIGEST_SIZE, _ => 1);
    var first, second := Data(name, low, None, []), Data(name, high, None, []);
    i := Interest([], -1, -1, 1, None, (c: Component) => false);
    ds := [first, second];
    var a, b := Component(GENERIC_COMPONENT, low), Component(GENERIC_COMPONENT, high);
    assert ComponentLess(a, b) by { assert low[0] < high[0]; }
    assert FullName(first)[1..] == [a] && FullName(second)[1..] == [b];
    assert NameLess(FullName(first)[1..], FullName(second)[1..]);
    assert NameLess(FullName(first), FullName(second));
    assert Child(i, first) == name == Child(i, second);
    NameOrder(name, name);
    NameOrder(FullName(first), FullName(second));
    HeadIsFirst(ds);
    assert second in ds && first in ds;
    assert IsSkipped(i, ds, first);
  }
}
