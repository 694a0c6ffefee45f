/** The two orders in which InfoMax lists a tree, on values: the n-th answer of the counting walk, and
    the round-robin merge. */
module InfomaxOrder {
  import opened Options
  import opened RoundRobin
  import opened TreeNodes

  /** The shape of a (sub)tree at one moment. */
  datatype Tree = Tree(node: TreeNode, data: bool, kids: seq<Tree>)

  // ----- what is in a forest -----

  function DataNodes(ks: seq<Tree>): seq<TreeNode> {
    if ks == [] then []
    else (if ks[0].data then [ks[0].node] else []) + DataNodes(ks[0].kids) + DataNodes(ks[1..])
  }

  function Nodes(ks: seq<Tree>): set<TreeNode> {
    if ks == [] then {} else {ks[0].node} + Nodes(ks[0].kids) + Nodes(ks[1..])
  }

  /** No node occurs twice. */
  ghost predicate Apart(ks: seq<Tree>) {
    ks != [] ==>
      && ks[0].node !in Nodes(ks[0].kids) && Apart(ks[0].kids)
      && ({ks[0].node} + Nodes(ks[0].kids)) !! Nodes(ks[1..]) && Apart(ks[1..])
  }

  /** Every leaf carries data. */
  ghost predicate Complete(ks: seq<Tree>) {
    ks != [] ==> (ks[0].kids == [] ==> ks[0].data) && Complete(ks[0].kids) && Complete(ks[1..])
  }

  /** No node that carries data has nodes below: no published suffix is a proper prefix of another. */
  ghost predicate PrefixFree(ks: seq<Tree>) {
    ks != [] ==> (ks[0].data ==> ks[0].kids == []) && PrefixFree(ks[0].kids) && PrefixFree(ks[1..])
  }

  lemma {:induction false} At(ks: seq<Tree>, j: nat)
    requires j < |ks|
    ensures Nodes([ks[j]]) <= Nodes(ks)
    ensures Apart(ks) ==> Apart([ks[j]])
    ensures Complete(ks) ==> Complete([ks[j]])
    ensures PrefixFree(ks) ==> PrefixFree([ks[j]])
    ensures forall x :: x in DataNodes([ks[j]]) ==> x in DataNodes(ks)
  {
    assert [ks[j]][1..] == [];
    assert DataNodes([]) == [] && Nodes([]) == {};
    if j > 0 { At(ks[1..], j - 1); }
  }

  lemma {:induction false} DisjointAt(ks: seq<Tree>, i: nat, j: nat)
    requires i < j < |ks| && Apart(ks)
    ensures Nodes([ks[i]]) !! Nodes([ks[j]])
  {
    At(ks, j);
    if i > 0 {
      DisjointAt(ks[1..], i - 1, j - 1);
    } else {
      At(ks[1..], j - 1);
      assert [ks[0]][1..] == [] && Nodes([ks[0]]) == {ks[0].node} + Nodes(ks[0].kids);
    }
  }

  // ----- the counting walk -----

  /** How many calls a node is offered: the data nodes below it, or one when there are none. */
  function Cap(t: Tree): nat {
    if DataNodes(t.kids) == [] then 1 else |DataNodes(t.kids)|
  }

  function Caps(ks: seq<Tree>): (caps: seq<nat>)
    ensures |caps| == |ks| && forall j :: 0 <= j < |ks| ==> caps[j] == Cap(ks[j])
  {
    seq(|ks|, j requires 0 <= j < |ks| => Cap(ks[j]))
  }

  /** How many of the first n calls a node passes on to its children. */
  function PassedOn(t: Tree, n: nat): nat {
    if t.data && n > 0 then n - 1 else n
  }

  function KidCounts(t: Tree, n: nat): (c: seq<nat>)
    ensures |c| == |t.kids|
  {
    Counts(Caps(t.kids), PassedOn(t, n))
  }

  /** The child asked by call number n on a node. */
  function Asked(t: Tree, n: nat): (r: Option<nat>)
    ensures r.Some? ==> r.value < |t.kids| && KidCounts(t, n)[r.value] < Cap(t.kids[r.value])
  {
    if t.data && n == 0 then None else Pick(Caps(t.kids), KidCounts(t, n))
  }

  /** What call number n on a node answers. */
  function Nth(t: Tree, n: nat): Option<TreeNode> {
    match Asked(t, n)
    case None => if t.data && n == 0 then Some(t.node) else None
    case Some(j) => Nth(t.kids[j], KidCounts(t, n)[j])
  }

  /** The answers to the first n calls. */
  function Listing(t: Tree, n: nat): (r: seq<Option<TreeNode>>)
    ensures |r| == n
  {
    seq(n, k requires 0 <= k => Nth(t, k))
  }

  /** The list of the counting walk from a root; None stands for a null entry. */
  function Simple(t: Tree): seq<Option<TreeNode>> {
    Listing(t, |DataNodes(t.kids)|)
  }

  // ----- the merge -----

  function Order(t: Tree): seq<TreeNode> {
    if t.kids == [] then [t.node] else Merged(Orders(t.kids))
  }

  function Orders(ks: seq<Tree>): (r: seq<seq<TreeNode>>)
    ensures |r| == |ks| && forall j :: 0 <= j < |ks| ==> r[j] == Order(ks[j])
  {
    if ks == [] then [] else [Order(ks[0])] + Orders(ks[1..])
  }

  // ----- every data node exactly once -----

  lemma {:induction false} OrdersListData(ks: seq<Tree>)
    requires Complete(ks) && PrefixFree(ks)
    ensures multiset(Concat(Orders(ks))) == multiset(DataNodes(ks))
    ensures ks != [] ==> DataNodes(ks) != []
  {
    if ks != [] {
      OrdersListData(ks[0].kids);
      OrdersListData(ks[1..]);
      if ks[0].kids != [] { MergedIsPermutation(Orders(ks[0].kids)); }
      assert Concat(Orders(ks)) == Order(ks[0]) + Concat(Orders(ks[1..])) by {
        assert Orders(ks)[1..] == Orders(ks[1..]);
      }
      assert multiset(Order(ks[0])) == multiset((if ks[0].data then [ks[0].node] else []) + DataNodes(ks[0].kids));
    }
  }

  /** On a complete prefix-free tree the merge lists every data node exactly once. */
  lemma OrderListsData(t: Tree)
    requires Complete(t.kids) && PrefixFree(t.kids) && t.kids != []
    ensures multiset(Order(t)) == multiset(DataNodes(t.kids))
    ensures |Order(t)| == |DataNodes(t.kids)| == Cap(t)
  {
    OrdersListData(t.kids);
    MergedIsPermutation(Orders(t.kids));
    assert |multiset(Order(t))| == |multiset(DataNodes(t.kids))|;
  }

  ghost predicate Sound(t: Tree) {
    Complete([t]) && PrefixFree([t])
  }

  lemma SoundMeans(t: Tree)
    requires Sound(t)
    ensures (t.data <==> t.kids == []) && Complete(t.kids) && PrefixFree(t.kids)
    ensures |Order(t)| == Cap(t) == |DataNodes([t])|
    ensures forall j :: 0 <= j < |t.kids| ==> Sound(t.kids[j])
  {
    OrdersListData(t.kids);
    assert [t][1..] == [];
    if t.kids != [] { OrderListsData(t); }
    forall j | 0 <= j < |t.kids| ensures Sound(t.kids[j]) { At(t.kids, j); }
  }

  // ----- the walk equals the merge -----

  lemma CapsAreLengths(ks: seq<Tree>)
    requires Complete(ks) && PrefixFree(ks)
    ensures Lengths(Orders(ks)) == Caps(ks)
  {
    forall j | 0 <= j < |ks| ensures |Orders(ks)[j]| == Caps(ks)[j] {
      At(ks, j);
      SoundMeans(ks[j]);
    }
  }

  lemma {:induction false} NthIsOrder(t: Tree, n: nat)
    requires Complete(t.kids) && PrefixFree(t.kids) && (t.data <==> t.kids == []) && n < |Order(t)|
    ensures Nth(t, n) == Some(Order(t)[n])
  {
    if t.kids != [] {
      CapsAreLengths(t.kids);
      MergedIsGreedy(Orders(t.kids), n);
      var c := KidCounts(t, n);
      var j := Pick(Caps(t.kids), c).value;
      At(t.kids, j);
      SoundMeans(t.kids[j]);
      NthIsOrder(t.kids[j], c[j]);
    }
  }

  function Somes(s: seq<TreeNode>): seq<Option<TreeNode>> {
    seq(|s|, n requires 0 <= n < |s| => Some(s[n]))
  }

  lemma {:induction false} FewerLeavesThanData(ks: seq<Tree>)
    requires Complete(ks)
    ensures |Concat(Orders(ks))| <= |DataNodes(ks)|
    ensures |Concat(Orders(ks))| == |DataNodes(ks)| ==> PrefixFree(ks)
    ensures ks != [] ==> Concat(Orders(ks)) != []
  {
    if ks != [] {
      FewerLeavesThanData(ks[0].kids);
      FewerLeavesThanData(ks[1..]);
      if ks[0].kids != [] { MergedIsPermutation(Orders(ks[0].kids)); }
      assert Orders(ks)[1..] == Orders(ks[1..]);
    }
  }

  /** The two prioritizers list the same nodes in the same order exactly when no data node has nodes below. */
  lemma WalkIsMergeIff(t: Tree)
    requires Complete(t.kids) && t.kids != [] && !t.data
    ensures Simple(t) == Somes(Order(t)) <==> PrefixFree(t.kids)
  {
    if PrefixFree(t.kids) {
      OrderListsData(t);
      forall n | 0 <= n < |Order(t)| ensures Simple(t)[n] == Somes(Order(t))[n] { NthIsOrder(t, n); }
    } else {
      FewerLeavesThanData(t.kids);
      MergedIsPermutation(Orders(t.kids));
    }
  }

  // ----- whom the walk leaves out -----

  lemma {:induction false} NthIsInside(t: Tree, n: nat)
    ensures Nth(t, n).Some? ==> Nth(t, n).value in Nodes([t]) && Nth(t, n).value in DataNodes([t])
  {
    var p := Asked(t, n);
    if p.Some? {
      NthIsInside(t.kids[p.value], KidCounts(t, n)[p.value]);
      At(t.kids, p.value);
    }
  }

  lemma KidCountsAfterCall(t: Tree, n: nat)
    ensures KidCounts(t, n + 1) ==
      match Asked(t, n)
      case None => KidCounts(t, n)
      case Some(j) => KidCounts(t, n)[j := KidCounts(t, n)[j] + 1]
  {
    if !(t.data && n == 0) {
      assert PassedOn(t, n + 1) == PassedOn(t, n) + 1;
    }
  }

  lemma CountsAfterCall(t: Tree, n: nat, j: nat)
    requires j < |t.kids|
    ensures KidCounts(t, n + 1)[j] == KidCounts(t, n)[j] + if Asked(t, n) == Some(j) then 1 else 0
  {
    KidCountsAfterCall(t, n);
  }

  /** A child answers only the calls it is asked. */
  lemma AnswerOfKid(t: Tree, n: nat, j: nat)
    requires Apart([t]) && j < |t.kids|
    ensures Apart([t.kids[j]])
    ensures Asked(t, n) == Some(j) ==> Nth(t, n) == Nth(t.kids[j], KidCounts(t, n)[j])
    ensures Asked(t, n) != Some(j) ==> Nth(t, n).None? || Nth(t, n).value !in Nodes([t.kids[j]])
  {
    At(t.kids, j);
    var p := Asked(t, n);
    if p.Some? && p.value != j {
      NthIsInside(t.kids[p.value], KidCounts(t, n)[p.value]);
      if p.value < j { DisjointAt(t.kids, p.value, j); } else { DisjointAt(t.kids, j, p.value); }
    }
  }

  /** Nothing occurs twice. */
  ghost predicate Once<T>(s: seq<T>) {
    forall x :: x in s ==> multiset(s)[x] == 1
  }

  lemma Pigeonhole<T>(a: seq<T>, b: seq<T>)
    requires Once(a) && forall x :: x in a ==> x in b
    ensures |a| <= |b| && (|a| == |b| ==> multiset(a) == multiset(b))
  {
    assert multiset(a) <= multiset(b) by {
      forall x | x in multiset(a) ensures multiset(a)[x] <= multiset(b)[x] {
        assert x in a && x in multiset(b);
      }
    }
    assert multiset(b) == multiset(a) + (multiset(b) - multiset(a));
    assert |multiset(a)| == |a| && |multiset(b)| == |b|;
  }

  lemma {:induction false} DataInNodes(ks: seq<Tree>)
    ensures forall x :: x in DataNodes(ks) ==> x in Nodes(ks)
  {
    if ks != [] { DataInNodes(ks[0].kids); DataInNodes(ks[1..]); }
  }

  lemma OnceTogether<T>(a: seq<T>, b: seq<T>)
    requires Once(a) && Once(b) && forall x :: x in a ==> x !in b
    ensures Once(a + b)
  {
    forall x | x in a + b ensures multiset(a + b)[x] == 1 {
      assert x !in a ==> multiset(a)[x] == 0;
      assert x !in b ==> multiset(b)[x] == 0;
    }
  }

  lemma {:induction false} DataOnce(ks: seq<Tree>)
    requires Apart(ks)
    ensures Once(DataNodes(ks))
  {
    if ks != [] {
      DataOnce(ks[0].kids);
      DataOnce(ks[1..]);
      DataInNodes(ks[0].kids);
      DataInNodes(ks[1..]);
      var own := if ks[0].data then [ks[0].node] else [];
      OnceTogether(own, DataNodes(ks[0].kids));
      OnceTogether(own + DataNodes(ks[0].kids), DataNodes(ks[1..]));
    }
  }

  lemma {:induction false} SomesOnce(s: seq<TreeNode>)
    requires Once(s)
    ensures Once(Somes(s))
  {
    forall x | x in Somes(s) ensures multiset(Somes(s))[x] == 1 { SomesCount(s, x.value); }
  }

  lemma {:induction false} SomesCount(s: seq<TreeNode>, x: TreeNode)
    ensures multiset(Somes(s))[Some(x)] == multiset(s)[x]
  {
    if s != [] {
      SomesCount(s[1..], x);
      assert s == [s[0]] + s[1..] && Somes(s) == [Some(s[0])] + Somes(s[1..]);
    }
  }

  ghost predicate AllAnswered(t: Tree) {
    forall x :: x in DataNodes([t]) ==> Some(x) in Listing(t, Cap(t))
  }

  lemma {:induction false} PrefixFreeParts(ks: seq<Tree>)
    requires forall j :: 0 <= j < |ks| ==> PrefixFree([ks[j]])
    ensures PrefixFree(ks)
  {
    if ks != [] {
      assert PrefixFree([ks[0]]);
      forall j | 0 <= j < |ks[1..]| ensures PrefixFree([ks[1..][j]]) { assert ks[1..][j] == ks[j + 1]; }
      PrefixFreeParts(ks[1..]);
    }
  }

  lemma AnsweredKid(t: Tree, j: nat)
    requires Apart([t]) && AllAnswered(t) && j < |t.kids|
    ensures AllAnswered(t.kids[j])
  {
    forall x | x in DataNodes([t.kids[j]]) ensures Some(x) in Listing(t.kids[j], Cap(t.kids[j])) {
      At(t.kids, j);
      DataInNodes([t.kids[j]]);
      assert x in DataNodes([t]);
      AnsweredByKid(t, j, x);
    }
  }

  lemma AnsweredByKid(t: Tree, j: nat, x: TreeNode)
    requires Apart([t]) && j < |t.kids| && x in Nodes([t.kids[j]]) && Some(x) in Listing(t, Cap(t))
    ensures Some(x) in Listing(t.kids[j], Cap(t.kids[j]))
  {
    var n :| 0 <= n < Cap(t) && Listing(t, Cap(t))[n] == Some(x);
    AnswerOfKid(t, n, j);
    assert Listing(t.kids[j], Cap(t.kids[j]))[KidCounts(t, n)[j]] == Some(x);
  }

  lemma {:induction false} CompleteHasData(ks: seq<Tree>)
    requires Complete(ks) && ks != []
    ensures DataNodes(ks) != []
  {
    if ks[0].kids != [] { CompleteHasData(ks[0].kids); }
  }

  /** A data node with nodes below is offered too few calls. */
  lemma {:induction false} AllAnsweredIsPrefixFree(t: Tree)
    requires Complete([t]) && Apart([t]) && AllAnswered(t)
    ensures PrefixFree([t])
  {
    if t.kids != [] {
      CompleteHasData(t.kids);
      DataOnce([t]);
      SomesOnce(DataNodes([t]));
      Pigeonhole(Somes(DataNodes([t])), Listing(t, Cap(t)));
      forall j | 0 <= j < |t.kids| ensures PrefixFree([t.kids[j]]) {
        At(t.kids, j);
        AnsweredKid(t, j);
        AllAnsweredIsPrefixFree(t.kids[j]);
      }
      PrefixFreeParts(t.kids);
    }
  }

  // ----- no answer is repeated -----

  lemma {:induction false} CountsGrow(caps: seq<nat>, m: nat, n: nat, j: nat)
    requires m <= n && j < |caps|
    ensures Counts(caps, m)[j] <= Counts(caps, n)[j]
  {
    if m < n {
      CountsGrow(caps, m, n - 1, j);
      CountsStep(caps, n - 1, j);
    }
  }

  lemma CountsStep(caps: seq<nat>, n: nat, j: nat)
    requires j < |caps|
    ensures Counts(caps, n)[j] <= Counts(caps, n + 1)[j]
  {}

  lemma {:induction false} AnswersDiffer(t: Tree, m: nat, n: nat)
    requires Apart([t]) && m < n && Nth(t, m).Some?
    ensures Nth(t, m) != Nth(t, n)
  {
    if Nth(t, m) == Nth(t, n) {
      var j := if t.data && m == 0 then Asked(t, n).value else Asked(t, m).value;
      NthIsInside(t.kids[j], KidCounts(t, if t.data && m == 0 then n else m)[j]);
      At(t.kids, j);
      AnswerOfKid(t, m, j);
      AnswerOfKid(t, n, j);
      CountsAfterCall(t, m, j);
      CountsGrow(Caps(t.kids), PassedOn(t, m + 1), PassedOn(t, n), j);
      AnswersDiffer(t.kids[j], KidCounts(t, m)[j], KidCounts(t, n)[j]);
    }
  }

  lemma ListingOnce(t: Tree, m: nat)
    requires Apart([t]) && None !in Listing(t, m)
    ensures Once(Listing(t, m))
  {
    var l := Listing(t, m);
    forall i, j | 0 <= i < j < m ensures l[i] != l[j] {
      assert l[i] in l;
      AnswersDiffer(t, i, j);
    }
    DifferentIsOnce(l);
  }

  lemma {:induction false} DifferentIsOnce<T>(s: seq<T>)
    requires forall i, j :: 0 <= i < j < |s| ==> s[i] != s[j]
    ensures Once(s)
  {
    if s != [] {
      DifferentIsOnce(s[1..]);
      assert s == [s[0]] + s[1..];
      assert Once([s[0]]);
      OnceTogether([s[0]], s[1..]);
    }
  }

  /** No node is listed twice, whatever the tree. */
  lemma WalkNeverRepeats(t: Tree, m: nat, n: nat)
    requires Apart([t]) && m < n < |Simple(t)| && Simple(t)[m].Some?
    ensures Simple(t)[m] != Simple(t)[n]
  {
    AnswersDiffer(t, m, n);
  }

  /** The walk lists every data node exactly once if and only if no data node has nodes below. */
  lemma WalkListsEachOnceIff(t: Tree)
    requires Complete(t.kids) && Apart([t]) && t.kids != [] && !t.data
    ensures multiset(Simple(t)) == multiset(Somes(DataNodes(t.kids))) <==> PrefixFree(t.kids)
  {
    if PrefixFree(t.kids) {
      WalkIsMergeIff(t);
      OrderListsData(t);
      SomesKeepsMultiset(Order(t), DataNodes(t.kids));
    } else if multiset(Simple(t)) == multiset(Somes(DataNodes(t.kids))) {
      AllListedIsPrefixFree(t);
    }
  }

  lemma SomesKeepsMultiset(a: seq<TreeNode>, b: seq<TreeNode>)
    requires multiset(a) == multiset(b)
    ensures multiset(Somes(a)) == multiset(Somes(b))
  {
    forall x ensures multiset(Somes(a))[x] == multiset(Somes(b))[x] {
      if x.Some? {
        SomesCount(a, x.value);
        SomesCount(b, x.value);
      } else {
        assert x !in Somes(a) && x !in Somes(b);
      }
    }
  }

  lemma SomesHolds(d: seq<TreeNode>, l: seq<Option<TreeNode>>, x: TreeNode)
    requires multiset(l) == multiset(Somes(d)) && x in d
    ensures Some(x) in l
  {
    var k :| 0 <= k < |d| && d[k] == x;
    assert Somes(d)[k] in multiset(Somes(d));
  }

  lemma RootFacts(t: Tree)
    requires Complete(t.kids) && t.kids != [] && !t.data
    ensures DataNodes([t]) == DataNodes(t.kids) && Cap(t) == |DataNodes(t.kids)| && Complete([t])
    ensures PrefixFree([t]) <==> PrefixFree(t.kids)
  {
    CompleteHasData(t.kids);
    assert [t][1..] == [];
  }

  lemma AllListedIsPrefixFree(t: Tree)
    requires Complete(t.kids) && Apart([t]) && t.kids != [] && !t.data
    requires multiset(Simple(t)) == multiset(Somes(DataNodes(t.kids)))
    ensures PrefixFree(t.kids)
  {
    RootFacts(t);
    var d := DataNodes(t.kids);
    forall x | x in d ensures Some(x) in Simple(t) { SomesHolds(d, Simple(t), x); }
    AllAnsweredIsPrefixFree(t);
  }

  lemma AnswerIsData(t: Tree, m: nat, x: Option<TreeNode>)
    requires x in Listing(t, m) && x.Some?
    ensures x in Somes(DataNodes([t]))
  {
    var n :| 0 <= n < m && Listing(t, m)[n] == x;
    NthIsInside(t, n);
    var k :| 0 <= k < |DataNodes([t])| && DataNodes([t])[k] == x.value;
    assert Somes(DataNodes([t]))[k] == x;
  }

  /** The walk lists a null if and only if some data node has nodes below. */
  lemma WalkListsNullIff(t: Tree)
    requires Complete(t.kids) && Apart([t]) && t.kids != [] && !t.data
    ensures None in Simple(t) <==> !PrefixFree(t.kids)
  {
    if PrefixFree(t.kids) {
      WalkIsMergeIff(t);
    } else if None !in Simple(t) {
      var d := DataNodes(t.kids);
      RootFacts(t);
      ListingOnce(t, |d|);
      forall x | x in Simple(t) ensures x in Somes(d) { AnswerIsData(t, |d|, x); }
      Pigeonhole(Simple(t), Somes(d));
      AllListedIsPrefixFree(t);
    }
  }

  // ----- fairness -----

  ghost predicate Lies(x: Option<TreeNode>, s: set<TreeNode>) {
    x.Some? && x.value in s
  }

  /** How many answers lie in a set of nodes. */
  ghost function ServedIn(l: seq<Option<TreeNode>>, s: set<TreeNode>): nat {
    if l == [] then 0 else ServedIn(l[..|l| - 1], s) + if Lies(l[|l| - 1], s) then 1 else 0
  }

  /** How many of the first n answers do. */
  ghost function Served(t: Tree, n: nat, s: set<TreeNode>): nat {
    ServedIn(Listing(t, n), s)
  }

  lemma ServedNext(t: Tree, n: nat, s: set<TreeNode>)
    ensures Served(t, n + 1, s) == Served(t, n, s) + if Lies(Nth(t, n), s) then 1 else 0
  {
    assert Listing(t, n + 1)[..n] == Listing(t, n);
  }

  lemma ServedStep(t: Tree, n: nat, kid: Tree, c: nat, isAsked: bool, s: set<TreeNode>)
    requires Served(t, n, s) == Served(kid, c, s)
    requires if isAsked then Nth(t, n) == Nth(kid, c) else !Lies(Nth(t, n), s)
    ensures Served(t, n + 1, s) == Served(kid, if isAsked then c + 1 else c, s)
  {
    ServedNext(t, n, s);
    ServedNext(kid, c, s);
  }

  lemma {:induction false} ServedByKid(t: Tree, n: nat, j: nat, s: set<TreeNode>)
    requires Apart([t]) && j < |t.kids| && s <= Nodes([t.kids[j]])
    ensures Served(t, n, s) == Served(t.kids[j], KidCounts(t, n)[j], s)
  {
    if n > 0 {
      var m: nat := n - 1;
      ServedByKid(t, m, j, s);
      CountsAfterCall(t, m, j);
      AnswerOfKid(t, m, j);
      ServedStep(t, m, t.kids[j], KidCounts(t, m)[j], Asked(t, m) == Some(j), s);
    }
  }

  lemma {:induction false} ServedAlways(t: Tree, n: nat)
    requires Sound(t) && n <= Cap(t)
    ensures Served(t, n, Nodes([t])) == n
  {
    if n > 0 {
      ServedAlways(t, n - 1);
      ServedNext(t, n - 1, Nodes([t]));
      AnswersFromInside(t, n - 1);
    }
  }

  lemma AnswersFromInside(t: Tree, n: nat)
    requires Sound(t) && n < Cap(t)
    ensures Lies(Nth(t, n), Nodes([t]))
  {
    SoundMeans(t);
    NthIsOrder(t, n);
    NthIsInside(t, n);
  }

  predicate Level(a: nat, b: nat, most: nat) { a <= b + 1 || b == most }

  /** Among the first n answers on a root, no child of t has two more than a sibling with data nodes left;
      and so on below. */
  ghost predicate Fair(root: Tree, n: nat, t: Tree) {
    && (forall i, j :: 0 <= i < |t.kids| && 0 <= j < |t.kids| ==>
         Level(Served(root, n, Nodes([t.kids[i]])), Served(root, n, Nodes([t.kids[j]])), |DataNodes([t.kids[j]])|))
    && (forall j :: 0 <= j < |t.kids| ==> Fair(root, n, t.kids[j]))
  }

  ghost predicate SameService(root: Tree, n: nat, t: Tree, m: nat) {
    forall s: set<TreeNode> :: s <= Nodes([t]) ==> Served(root, n, s) == Served(t, m, s)
  }

  lemma ServiceOfKid(root: Tree, n: nat, t: Tree, m: nat, j: nat)
    requires Apart([t]) && Complete(t.kids) && PrefixFree(t.kids) && SameService(root, n, t, m) && j < |t.kids|
    ensures Served(root, n, Nodes([t.kids[j]])) == KidCounts(t, m)[j] <= Cap(t.kids[j])
    ensures Cap(t.kids[j]) == |DataNodes([t.kids[j]])|
    ensures SameService(root, n, t.kids[j], KidCounts(t, m)[j])
    ensures Apart([t.kids[j]]) && Complete(t.kids[j].kids) && PrefixFree(t.kids[j].kids)
  {
    At(t.kids, j);
    SoundMeans(t.kids[j]);
    assert [t.kids[j]][1..] == [];
    forall s: set<TreeNode> | s <= Nodes([t.kids[j]])
      ensures Served(root, n, s) == Served(t.kids[j], KidCounts(t, m)[j], s)
    {
      assert s <= Nodes([t]);
      ServedByKid(t, m, j, s);
    }
    CountsStayBelow(Caps(t.kids), PassedOn(t, m), j);
    ServedAlways(t.kids[j], KidCounts(t, m)[j]);
  }

  lemma {:induction false} FairBelow(root: Tree, n: nat, t: Tree, m: nat)
    requires Apart([t]) && Complete(t.kids) && PrefixFree(t.kids) && SameService(root, n, t, m)
    ensures Fair(root, n, t)
  {
    forall j | 0 <= j < |t.kids| ensures Fair(root, n, t.kids[j]) {
      ServiceOfKid(root, n, t, m, j);
      FairBelow(root, n, t.kids[j], KidCounts(t, m)[j]);
    }
    forall i, j | 0 <= i < |t.kids| && 0 <= j < |t.kids|
      ensures Level(Served(root, n, Nodes([t.kids[i]])), Served(root, n, Nodes([t.kids[j]])), |DataNodes([t.kids[j]])|)
    {
      ServiceOfKid(root, n, t, m, i);
      ServiceOfKid(root, n, t, m, j);
      if KidCounts(t, m)[j] < Cap(t.kids[j]) { CountsAreFair(Caps(t.kids), PassedOn(t, m), i, j); }
    }
  }

  /** In every prefix of the walk over a complete prefix-free tree, siblings anywhere are served evenly. */
  lemma SiblingsAreServedEvenly(t: Tree, n: nat)
    requires Apart([t]) && Complete(t.kids) && PrefixFree(t.kids)
    ensures Fair(t, n, t)
  {
    FairBelow(t, n, t, n);
  }
}
