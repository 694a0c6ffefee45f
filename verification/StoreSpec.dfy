/** What the content store means, without its skip list: packets in order of arrival,
    a capacity, and Interests answered by looking at every packet. */
module StoreSpec {
  import opened Names
  import opened Options

  datatype KeyLocator = KeyName(name: Name) | KeyDigest(value: seq<byte>)

  /** digest is the SHA-256 of the whole packet, taken as given. */
  datatype Data = Data(name: Name, digest: Digest, keyLocator: Option<KeyLocator>, content: seq<byte>)

  /** Suffix counts below zero mean "not specified"; a child selector above zero asks for the rightmost child. */
  datatype Interest = Interest(
    name: Name, minSuffix: int, maxSuffix: int, childSelector: int,
    keyLocator: Option<KeyLocator>, excludes: Component -> bool)

  function FullName(d: Data): (n: Name)
    ensures n != [] && d.name < n
  {
    d.name + [Component(GENERIC_COMPONENT, d.digest)]
  }

  predicate RecognizesDigest(i: Interest, n: Name) {
    i.minSuffix <= 0 && |i.name| == |n| && i.name != [] && |i.name[|i.name| - 1].value| == DIGEST_SIZE
  }

  predicate InPrefix(i: Interest, d: Data) {
    if RecognizesDigest(i, FullName(d)) then i.name[..|i.name| - 1] <= FullName(d) else i.name <= FullName(d)
  }

  predicate HasLocator(i: Interest, d: Data) {
    i.keyLocator.Some? ==> d.keyLocator == i.keyLocator
  }

  predicate Excludes(i: Interest, c: Component) {
    c.value != [] && i.excludes(c)
  }

  /** The meaning of an Interest without implicit digest: the name extends it, by as many components as asked for,
      with the right key and without an excluded child. */
  predicate Satisfies(i: Interest, d: Data) {
    var n := FullName(d);
    && i.name <= n && HasLocator(i, d)
    && (i.minSuffix >= 0 ==> |n| - |i.name| >= i.minSuffix)
    && (i.maxSuffix >= 0 ==> |n| - |i.name| <= i.maxSuffix)
    && (i.name < n ==> !Excludes(i, n[|i.name|]))
  }

  /** The meaning of one whose last component is taken for the digest of this packet. */
  predicate HasDigest(i: Interest, d: Data) {
    && i.name != [] && InPrefix(i, d) && d.digest == i.name[|i.name| - 1].value
    && HasLocator(i, d) && !Excludes(i, Component(GENERIC_COMPONENT, d.digest))
  }

  /** The test the store applies to one packet. */
  predicate Hit(i: Interest, d: Data) {
    if RecognizesDigest(i, FullName(d)) then HasDigest(i, d) else Satisfies(i, d)
  }

  /** Some entry name could make the store take the Interest's last component for a digest. */
  predicate DigestShaped(i: Interest) {
    i.minSuffix <= 0 && i.name != [] && |i.name[|i.name| - 1].value| == DIGEST_SIZE
  }

  predicate Leftmost(i: Interest) { i.childSelector <= 0 }

  /** The entry's name up to the child component: one component past the Interest name. */
  function Child(i: Interest, d: Data): Name {
    Truncate(FullName(d), |i.name| + 1)
  }

  // ----- the linear scan that find refines -----

  function LinearFind(i: Interest, ds: seq<Data>): Option<Data> {
    if ds == [] then None
    else
      var best := LinearFind(i, ds[1..]);
      if !Satisfies(i, ds[0]) then best
      else if best.None? || NameLess(FullName(ds[0]), FullName(best.value)) then Some(ds[0])
      else best
  }

  ghost predicate DistinctNames(ds: seq<Data>) {
    forall j, k :: 0 <= j < k < |ds| ==> FullName(ds[j]) != FullName(ds[k])
  }

  ghost predicate IsLeast(i: Interest, ds: seq<Data>, r: Option<Data>) {
    match r
    case None => forall d :: d in ds ==> !Satisfies(i, d)
    case Some(x) =>
      && x in ds && Satisfies(i, x)
      && forall d :: d in ds && Satisfies(i, d) && d != x ==> NameLess(FullName(x), FullName(d))
  }

  /** The scan returns the satisfying packet with the least full name, and None exactly when no packet satisfies. */
  lemma {:induction false} LinearFindIsLeast(i: Interest, ds: seq<Data>)
    requires DistinctNames(ds)
    ensures IsLeast(i, ds, LinearFind(i, ds))
  {
    if ds != [] {
      LinearFindIsLeast(i, ds[1..]);
      var best := LinearFind(i, ds[1..]);
      assert ds == [ds[0]] + ds[1..];
      if Satisfies(i, ds[0]) && best.Some? {
        var k :| 0 <= k < |ds[1..]| && ds[1..][k] == best.value;
        assert FullName(ds[0]) != FullName(ds[k + 1]);
        NameOrder(FullName(ds[0]), FullName(best.value));
        if NameLess(FullName(ds[0]), FullName(best.value)) {
          forall d | d in ds && Satisfies(i, d) && d != ds[0]
            ensures NameLess(FullName(ds[0]), FullName(d))
          {
            if d != best.value { NameTransitive(FullName(ds[0]), FullName(best.value), FullName(d)); }
          }
        }
      }
    }
  }

  lemma LeastIsUnique(i: Interest, ds: seq<Data>, r: Option<Data>, s: Option<Data>)
    requires IsLeast(i, ds, r) && IsLeast(i, ds, s)
    ensures r == s
  {
    if r.Some? && s.Some? && r != s {
      NameOrder(FullName(r.value), FullName(s.value));
    }
  }

  /** Leftmost entry of the rightmost child: the greatest child prefix among satisfying packets,
      and the least full name within that child. */
  ghost predicate IsLeftmostOfRightmostChild(i: Interest, ds: seq<Data>, r: Option<Data>) {
    match r
    case None => forall d :: d in ds ==> !Satisfies(i, d)
    case Some(x) =>
      && InRightmostChild(i, ds, x)
      && forall d :: d in ds && Satisfies(i, d) && Child(i, d) == Child(i, x) && d != x ==> NameLess(FullName(x), FullName(d))
  }

  ghost predicate InRightmostChild(i: Interest, ds: seq<Data>, x: Data) {
    x in ds && Satisfies(i, x) && forall d :: d in ds && Satisfies(i, d) ==> !NameLess(Child(i, x), Child(i, d))
  }

  // ----- first in, first out -----

  function PositionOf(ds: seq<Data>, n: Name): (r: Option<nat>)
    ensures r.Some? ==> r.value < |ds| && FullName(ds[r.value]) == n
    ensures r.None? ==> forall k :: 0 <= k < |ds| ==> FullName(ds[k]) != n
  {
    if ds == [] then None
    else if FullName(ds[0]) == n then Some(0)
    else match PositionOf(ds[1..], n)
         case None => assert forall k :: 0 < k < |ds| ==> ds[k] == ds[1..][k - 1]; None
         case Some(k) => Some(k + 1)
  }

  function DropOldest(ds: seq<Data>, limit: nat): seq<Data> {
    if |ds| >= limit && ds != [] then ds[1..] else ds
  }

  /** Drop the oldest arrival when full, then add, or refresh in place when the full name is present. */
  function InsertSpec(ds: seq<Data>, limit: nat, d: Data): (seq<Data>, bool) {
    var room := DropOldest(ds, limit);
    match PositionOf(room, FullName(d))
    case Some(k) => (room[k := d], false)
    case None => (room + [d], true)
  }

  lemma InsertNew(ds: seq<Data>, limit: nat, d: Data)
    requires |ds| < limit && !Holds(ds, FullName(d))
    ensures InsertSpec(ds, limit, d) == (ds + [d], true)
  {
    var p := PositionOf(ds, FullName(d));
  }

  lemma InsertDuplicate(ds: seq<Data>, limit: nat, d: Data, k: nat)
    requires |ds| < limit && DistinctNames(ds) && k < |ds| && FullName(ds[k]) == FullName(d)
    ensures InsertSpec(ds, limit, d) == (ds[k := d], false)
  {
    var p := PositionOf(ds, FullName(d));
    assert p == Some(k);
  }

  /** A changed limit evicts oldest arrivals while the store is full. */
  function LimitSpec(ds: seq<Data>, limit: nat): seq<Data> {
    if |ds| >= limit && ds != [] then LimitSpec(ds[1..], limit) else ds
  }

  /** What a changed limit leaves: the newest arrivals, fewer than the limit (one less than fit) or none. */
  lemma {:induction false} LimitSpecMeaning(ds: seq<Data>, limit: nat)
    ensures LimitSpec(ds, limit) ==
      if |ds| < limit then ds else if limit == 0 then [] else ds[|ds| - (limit - 1)..]
  {
    if |ds| >= limit && ds != [] {
      LimitSpecMeaning(ds[1..], limit);
    }
  }

  ghost predicate Holds(ds: seq<Data>, n: Name) {
    exists k :: 0 <= k < |ds| && FullName(ds[k]) == n
  }

  lemma DropOldestKeepsDistinct(ds: seq<Data>, limit: nat)
    requires DistinctNames(ds)
    ensures DistinctNames(DropOldest(ds, limit))
    ensures forall n: Name :: Holds(DropOldest(ds, limit), n) <==>
      Holds(ds, n) && !(|ds| >= limit && ds != [] && FullName(ds[0]) == n)
  {
    var room := DropOldest(ds, limit);
    forall n: Name ensures Holds(room, n) <==> Holds(ds, n) && !(|ds| >= limit && ds != [] && FullName(ds[0]) == n) {
      if Holds(room, n) {
        var k :| 0 <= k < |room| && FullName(room[k]) == n;
        assert FullName(ds[k + |ds| - |room|]) == n;
      }
      if Holds(ds, n) && !(|ds| >= limit && ds != [] && FullName(ds[0]) == n) {
        var k :| 0 <= k < |ds| && FullName(ds[k]) == n;
        assert FullName(room[k - (|ds| - |room|)]) == n;
      }
    }
  }

  /** insert never exceeds the limit and keeps names distinct; the packet is then present; the flag says
      "new" exactly when the name was absent, or belonged to the packet just dropped to make room;
      refreshing a duplicate keeps its place in the order of arrival. */
  lemma InsertSpecMeaning(ds: seq<Data>, limit: nat, d: Data)
    requires DistinctNames(ds) && |ds| <= limit && 1 <= limit
    ensures DistinctNames(InsertSpec(ds, limit, d).0)
    ensures |InsertSpec(ds, limit, d).0| <= limit && d in InsertSpec(ds, limit, d).0
    ensures InsertSpec(ds, limit, d).1 <==>
      !Holds(ds, FullName(d)) || (|ds| == limit && FullName(ds[0]) == FullName(d))
    ensures InsertSpec(ds, limit, d).1 ==> InsertSpec(ds, limit, d).0 == DropOldest(ds, limit) + [d]
    ensures !InsertSpec(ds, limit, d).1 ==>
      SameNames(InsertSpec(ds, limit, d).0, DropOldest(ds, limit))
  {
    DropOldestKeepsDistinct(ds, limit);
    var room := DropOldest(ds, limit);
    match PositionOf(room, FullName(d)) {
      case Some(k) =>
        assert room[k := d][k] == d;
        assert Holds(room, FullName(d));
      case None =>
        assert (room + [d])[|room|] == d;
        assert !Holds(room, FullName(d));
    }
  }

  ghost predicate SameNames(a: seq<Data>, b: seq<Data>) {
    |a| == |b| && forall k :: 0 <= k < |a| ==> FullName(a[k]) == FullName(b[k])
  }
}
