/** Whole runs of the content store, from its construction on. */
module StoreRuns {
  import opened Names
  import opened Options
  import opened StoreSpec
  import opened SelectSpec
  import opened Lists
  import opened SkipLists
  import opened ContentStore

  datatype Request =
    | Insertion(d: Data, unsolicited: bool, layer: nat)
    | NewLimit(limit: nat)

  /** Packets in order of arrival, and the limit. */
  datatype Store = Store(ds: seq<Data>, limit: nat)

  function After(s: Store, r: Request): Store {
    match r
    case Insertion(d, _, _) => s.(ds := InsertSpec(s.ds, s.limit, d).0)
    case NewLimit(n) => Store(LimitSpec(s.ds, n), n)
  }

  function Run(limit: nat, requests: seq<Request>): Store {
    if requests == [] then Store([], limit)
    else After(Run(limit, requests[..|requests| - 1]), requests[|requests| - 1])
  }

  /** Nothing is inserted while the limit is zero, and every layer fits the table. */
  ghost predicate Admissible(limit: nat, requests: seq<Request>) {
    forall k :: 0 <= k < |requests| && requests[k].Insertion? ==>
      requests[k].layer < MAX_LAYERS && Run(limit, requests[..k]).limit >= 1
  }

  lemma AdmissiblePrefix(limit: nat, requests: seq<Request>, n: nat)
    requires Admissible(limit, requests) && n <= |requests|
    ensures Admissible(limit, requests[..n])
  {
    forall k | 0 <= k < n && requests[..n][k].Insertion?
      ensures requests[..n][k].layer < MAX_LAYERS && Run(limit, requests[..n][..k]).limit >= 1
    {
      assert requests[..n][..k] == requests[..k];
    }
  }

  /** Over every run: full names stay distinct and the size never exceeds the limit. */
  lemma {:induction false} RunKeepsStore(limit: nat, requests: seq<Request>)
    requires Admissible(limit, requests)
    ensures DistinctNames(Run(limit, requests).ds)
    ensures |Run(limit, requests).ds| <= Run(limit, requests).limit
  {
    if requests != [] {
      var n := |requests| - 1;
      AdmissiblePrefix(limit, requests, n);
      RunKeepsStore(limit, requests[..n]);
      var s := Run(limit, requests[..n]);
      match requests[n] {
        case Insertion(d, _, _) => InsertSpecMeaning(s.ds, s.limit, d);
        case NewLimit(m) => LimitSpecMeaning(s.ds, m);
      }
    }
  }

  function Newest(ds: seq<Data>, limit: nat): seq<Data> {
    if |ds| <= limit then ds else ds[|ds| - limit..]
  }

  function Insertions(ds: seq<Data>, layers: seq<nat>): (r: seq<Request>)
    requires |layers| == |ds|
    ensures |r| == |ds|
  {
    seq(|ds|, k requires 0 <= k < |ds| && k < |layers| => Insertion(ds[k], false, layers[k]))
  }

  /** First in, first out: packets with different full names, whatever their layers, leave the newest ones. */
  lemma {:induction false} KeepsTheNewest(limit: nat, ds: seq<Data>, layers: seq<nat>)
    requires limit >= 1 && DistinctNames(ds) && |layers| == |ds|
    ensures Run(limit, Insertions(ds, layers)) == Store(Newest(ds, limit), limit)
  {
    if ds != [] {
      var n := |ds| - 1;
      assert Insertions(ds, layers)[..n] == Insertions(ds[..n], layers[..n]);
      KeepsTheNewest(limit, ds[..n], layers[..n]);
      NewestStep(limit, ds);
    }
  }

  lemma NewestStep(limit: nat, ds: seq<Data>)
    requires limit >= 1 && DistinctNames(ds) && ds != []
    ensures InsertSpec(Newest(ds[..|ds| - 1], limit), limit, ds[|ds| - 1]).0 == Newest(ds, limit)
  {
    var n := |ds| - 1;
    var from := if n < limit then 0 else n + 1 - limit;
    RoomForOne(ds, n, limit, from);
    NotAmongOthers(ds, from);
  }

  lemma RoomForOne(ds: seq<Data>, n: nat, limit: nat, from: nat)
    requires limit >= 1 && |ds| == n + 1 && from == if n < limit then 0 else n + 1 - limit
    ensures DropOldest(Newest(ds[..n], limit), limit) == ds[from..n]
    ensures ds[from..n] + [ds[n]] == Newest(ds, limit)
  {
    assert n < limit ==> ds[..n] == ds[from..n];
    assert n >= limit ==> ds[..n][n - limit..] == ds[n - limit..n];
  }

  lemma NotAmongOthers(ds: seq<Data>, from: nat)
    requires DistinctNames(ds) && from < |ds|
    ensures PositionOf(ds[from..|ds| - 1], FullName(ds[|ds| - 1])).None?
  {
    var others := ds[from..|ds| - 1];
    assert forall k :: 0 <= k < |others| ==> others[k] == ds[from + k];
  }

  /** The skip list over a whole run answers like a scan of the specification's packets: the layers
      drawn for the entries, and everything the requests left behind, do not show. */
  method Replay(limit: nat, requests: seq<Request>, i: Interest) returns (r: Option<Data>, size: nat)
    requires Admissible(limit, requests)
    ensures size == |Run(limit, requests).ds| <= Run(limit, requests).limit
    ensures IsAnswer(i, Run(limit, requests).ds, r)
    ensures !DigestShaped(i) && Leftmost(i) ==> r == LinearFind(i, Run(limit, requests).ds)
  {
    var cs := new Cs(limit);
    for k := 0 to |requests|
      invariant cs.Valid() && fresh(cs) && fresh(cs.repr)
      invariant Store(cs.Arrivals(), cs.nMaxPackets) == Run(limit, requests[..k])
    {
      assert requests[..k + 1][..k] == requests[..k];
      Perform(cs, requests[k]);
    }
    assert requests[..|requests|] == requests;
    RunKeepsStore(limit, requests);
    r := cs.Find(i);
    size := cs.Size();
  }

  /** One request to the object. */
  method Perform(cs: Cs, r: Request)
    requires cs.Valid() && (r.Insertion? ==> r.layer < MAX_LAYERS && cs.nMaxPackets >= 1)
    modifies cs, cs.repr
    ensures cs.Valid() && fresh(cs.repr - old(cs.repr))
    ensures Store(cs.Arrivals(), cs.nMaxPackets) == After(old(Store(cs.Arrivals(), cs.nMaxPackets)), r)
  {
    match r {
      case Insertion(d, unsolicited, layer) => var _ := cs.Insert(d, unsolicited, layer);
      case NewLimit(n) => cs.SetLimit(n);
    }
  }

  /** The pool is conserved: free entries and stored entries add up to the limit and do not overlap, and the
      cleanup index is a permutation, without repetition, of the bottom layer. */
  lemma PoolIsConserved(cs: Cs)
    requires cs.Valid()
    ensures |cs.freeEntries| + |cs.skipList[0]| == cs.nMaxPackets && |cs.cleanupIndex| == |cs.skipList[0]|
    ensures NoRepeats(EntriesOf(cs.skipList[0])) && NoRepeats(cs.cleanupIndex) && NoRepeats(cs.freeEntries)
    ensures forall e :: e in EntriesOf(cs.skipList[0]) <==> e in cs.cleanupIndex
    ensures forall e :: e in cs.repr <==> e in cs.freeEntries || e in cs.cleanupIndex
    ensures forall e :: e in cs.freeEntries ==> e !in cs.cleanupIndex
  {
    cs.StoredIsBottom(cs.cleanupIndex, {});
    var entries := EntriesOf(cs.skipList[0]);
    forall j, k | 0 <= j < k < |entries| ensures entries[j] != entries[k] {
      NameOrder(NamesOf(cs.repr)[entries[j]], NamesOf(cs.repr)[entries[k]]);
    }
    forall e | e in cs.cleanupIndex ensures e in entries && e !in cs.freeEntries {
      var c :| c in cs.skipList[0] && c.value == e;
      assert entries[IndexOf(cs.skipList[0], c)] == e;
    }
    forall e | e in entries ensures e in cs.cleanupIndex {
      var k :| 0 <= k < |entries| && entries[k] == e;
      assert cs.skipList[0][k] in cs.skipList[0];
    }
  }
}
