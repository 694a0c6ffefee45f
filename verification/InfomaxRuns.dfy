/** From published suffixes to priority lists: the tree in memory is a value of the kind InfomaxOrder speaks of,
    so what is proved there holds of every run of the producer and its prioritizer. */
module InfomaxRuns {
  import opened Names
  import opened Options
  import opened TreeNodes
  import opened InfomaxTree
  import opened InfomaxOrder
  import opened Infomax

  ghost predicate AnyAbove(cs: seq<TreeNode>, n: Name) {
    cs != [] && (cs[0].name <= n || AnyAbove(cs[1..], n))
  }

  lemma {:induction false} AnyAboveIff(cs: seq<TreeNode>, n: Name)
    ensures AnyAbove(cs, n) <==> exists k :: 0 <= k < |cs| && cs[k].name <= n
  {
    if cs != [] {
      AnyAboveIff(cs[1..], n);
      assert forall k :: 0 <= k < |cs| - 1 ==> cs[1..][k] == cs[k + 1];
    }
  }

  /** The registered suffixes at or below these nodes. */
  ghost function Under(data: set<Name>, cs: seq<TreeNode>): set<Name> {
    set d | d in data && AnyAbove(cs, d)
  }

  /** Different nodes at one depth. */
  ghost predicate IsLayer(nodes: Paths, cs: seq<TreeNode>, depth: nat) {
    && (forall k :: 0 <= k < |cs| ==> cs[k].name in nodes && nodes[cs[k].name] == cs[k] && |cs[k].name| == depth)
    && (forall j, k :: 0 <= j < k < |cs| ==> cs[j].name != cs[k].name)
  }

  /** These trees stand at these nodes, and hold nodes below them, none twice. */
  ghost predicate Stands(nodes: Paths, cs: seq<TreeNode>, ks: seq<Tree>) {
    && Roots(ks) == cs && Apart(ks)
    && (forall x :: x in Nodes(ks) ==> x.name in nodes && nodes[x.name] == x && AnyAbove(cs, x.name))
  }

  /** Their data nodes are those of the registered suffixes below; every leaf is one; and the forest is
      prefix-free exactly when no such suffix is extended by another. */
  ghost predicate Holds(nodes: Paths, data: set<Name>, cs: seq<TreeNode>, ks: seq<Tree>) {
    && Complete(ks)
    && (forall x :: x in DataNodes(ks) ==> x.name in data)
    && (forall d :: d in Under(data, cs) ==> d in nodes && nodes[d] in DataNodes(ks))
    && |DataNodes(ks)| == |Under(data, cs)|
    && (PrefixFree(ks) <==> NothingExtends(data, Under(data, cs)))
  }

  lemma BelowIsUnderFamily(nodes: Paths, data: set<Name>, n: Name, cs: seq<TreeNode>)
    requires Settled(nodes, data) && IsFamily(nodes, n, cs) && forall m :: m in nodes ==> nodes[m].name == m
    ensures Under(data, cs) == Below(data, n)
  {
    forall d | d in data ensures AnyAbove(cs, d) <==> n < d {
      AnyAboveIff(cs, d);
      if n < d {
        var m := d[..|n| + 1];
        assert Up(m) == n;
        assert InTree(data, m);
        assert nodes[m] in cs;
      }
      if AnyAbove(cs, d) {
        var k :| 0 <= k < |cs| && cs[k].name <= d;
        assert IsChild(nodes, n, cs[k]);
      }
    }
  }

  lemma FamilyIsLayer(nodes: Paths, n: Name, cs: seq<TreeNode>)
    requires IsFamily(nodes, n, cs)
    ensures IsLayer(nodes, cs, |n| + 1)
  {
    forall k | 0 <= k < |cs| ensures cs[k].name in nodes && nodes[cs[k].name] == cs[k] && |cs[k].name| == |n| + 1 {
      assert IsChild(nodes, n, cs[k]);
    }
  }

  lemma LayerRest(nodes: Paths, cs: seq<TreeNode>, depth: nat)
    requires IsLayer(nodes, cs, depth) && cs != []
    ensures IsLayer(nodes, cs[1..], depth)
    ensures cs[0].name in nodes && nodes[cs[0].name] == cs[0] && |cs[0].name| == depth
  {
    assert forall k :: 0 <= k < |cs| - 1 ==> cs[1..][k] == cs[k + 1];
  }

  lemma LayersSplit(nodes: Paths, cs: seq<TreeNode>, depth: nat, m: Name)
    requires IsLayer(nodes, cs, depth) && cs != []
    ensures cs[0].name <= m ==> !AnyAbove(cs[1..], m)
  {
    AnyAboveIff(cs[1..], m);
    forall k | 0 <= k < |cs| - 1 && cs[0].name <= m ensures !(cs[1..][k].name <= m) {
      assert cs[1..][k] == cs[k + 1] && cs[k + 1].name != cs[0].name == m[..depth];
    }
  }

  lemma UnderSplits(nodes: Paths, data: set<Name>, cs: seq<TreeNode>, depth: nat)
    requires IsLayer(nodes, cs, depth) && cs != []
    ensures var n := cs[0].name;
      && Under(data, cs) == (if n in data then {n} else {}) + Below(data, n) + Under(data, cs[1..])
      && |Under(data, cs)| == (if n in data then 1 else 0) + |Below(data, n)| + |Under(data, cs[1..])|
  {
    var n := cs[0].name;
    forall m | n <= m ensures !AnyAbove(cs[1..], m) { LayersSplit(nodes, cs, depth, m); }
    var own, below, rest := if n in data then {n} else {}, Below(data, n), Under(data, cs[1..]);
    forall d | d in data ensures d in Under(data, cs) <==> d in own + below + rest {
      assert n <= d <==> n == d || n < d;
    }
    assert Under(data, cs) == own + below + rest;
    assert own !! below && (own + below) !! rest;
  }

  lemma AddStands(nodes: Paths, cs: seq<TreeNode>, t: Tree, rest: seq<Tree>, cc: seq<TreeNode>, depth: nat)
    requires IsLayer(nodes, cs, depth) && cs != [] && t.node == cs[0]
    requires forall m :: AnyAbove(cc, m) ==> cs[0].name < m
    requires Stands(nodes, cc, t.kids) && Stands(nodes, cs[1..], rest)
    ensures Stands(nodes, cs, [t] + rest)
  {
    var ks := [t] + rest;
    assert ks[1..] == rest;
    assert Roots(ks) == [cs[0]] + cs[1..];
    forall x | x in Nodes(t.kids) || x == t.node ensures cs[0].name <= x.name && x !in Nodes(rest) {
      LayersSplit(nodes, cs, depth, x.name);
    }
  }

  lemma AddHolds(nodes: Paths, data: set<Name>, cs: seq<TreeNode>, t: Tree, rest: seq<Tree>, depth: nat, cc: seq<TreeNode>)
    requires Settled(nodes, data) && IsLayer(nodes, cs, depth) && depth >= 1 && cs != []
    requires t.node == cs[0] && t.data == (cs[0].name in data) && Roots(t.kids) == cc
    requires Holds(nodes, data, cc, t.kids) && Holds(nodes, data, cs[1..], rest)
    requires Under(data, cc) == Below(data, cs[0].name)
    ensures Holds(nodes, data, cs, [t] + rest)
  {
    var n, ks := cs[0].name, [t] + rest;
    assert ks[1..] == rest;
    UnderSplits(nodes, data, cs, depth);
    if Below(data, n) == {} { LeafIsData(nodes, data, n); }
    if t.kids != [] { CompleteHasData(t.kids); }
    assert PrefixFree(ks) <==> (t.data ==> Below(data, n) == {}) && PrefixFree(t.kids) && PrefixFree(rest);
    NothingExtendsSplits(data, if n in data then {n} else {}, Below(data, n), Under(data, cs[1..]));
    forall d | d in Under(data, cs) ensures d in nodes && nodes[d] in DataNodes(ks) {
      assert d in Under(data, cc) || d in Under(data, cs[1..]) || d == n;
    }
  }

  lemma NothingExtendsSplits(data: set<Name>, a: set<Name>, b: set<Name>, c: set<Name>)
    ensures NothingExtends(data, a + b + c) <==>
      NothingExtends(data, a) && NothingExtends(data, b) && NothingExtends(data, c)
  {}

  lemma LeafIsData(nodes: Paths, data: set<Name>, n: Name)
    requires Settled(nodes, data) && n in nodes && n != [] && Below(data, n) == {}
    ensures n in data
  {
    assert InTree(data, n);
    var d :| d in data && n <= d;
    assert n < d ==> d in Below(data, n);
    assert n == d;
  }

  lemma {:induction false} BuildForest(nodes: Paths, data: set<Name>, cs: seq<TreeNode>, depth: nat, bound: nat)
    returns (ks: seq<Tree>)
    requires Grown(nodes, data) && Settled(nodes, data) && IsLayer(nodes, cs, depth) && depth >= 1
    requires forall n :: n in nodes ==> |n| <= bound
    ensures Stands(nodes, cs, ks) && Holds(nodes, data, cs, ks) && Shape(ks)
    decreases bound + 1 - depth, |cs|
  {
    if cs == [] {
      ks := [];
    } else {
      var c, cc := cs[0], cs[0].children;
      LayerRest(nodes, cs, depth);
      FamilyIsLayer(nodes, c.name, cc);
      BelowIsUnderFamily(nodes, data, c.name, cc);
      var kids := BuildForest(nodes, data, cc, depth + 1, bound);
      var rest := BuildForest(nodes, data, cs[1..], depth, bound);
      var t := Tree(c, c.dataNode, kids);
      FamilyIsBelow(nodes, c.name, cc);
      AddStands(nodes, cs, t, rest, cc, depth);
      AddHolds(nodes, data, cs, t, rest, depth, cc);
      ks := [t] + rest;
      assert ks[1..] == rest;
    }
  }

  lemma FamilyIsBelow(nodes: Paths, n: Name, cs: seq<TreeNode>)
    requires IsFamily(nodes, n, cs)
    ensures forall m :: AnyAbove(cs, m) ==> n < m
  {
    forall m | AnyAbove(cs, m) ensures n < m {
      AnyAboveIff(cs, m);
      var k :| 0 <= k < |cs| && cs[k].name <= m;
      assert IsChild(nodes, n, cs[k]);
    }
  }

  lemma {:induction false} LongestName(names: set<Name>) returns (bound: nat)
    ensures forall n :: n in names ==> |n| <= bound
  {
    bound := 0;
    if names != {} {
      var n :| n in names;
      var rest := LongestName(names - {n});
      bound := if rest < |n| then |n| else rest;
    }
  }

  /** The whole tree, as a value. */
  ghost predicate IsWhole(nodes: Paths, data: set<Name>, t: Tree) {
    && !t.data && Apart([t]) && Nodes([t]) <= nodes.Values
    && Complete(t.kids) && (t.kids == [] <==> data == {})
    && (forall x :: x in DataNodes(t.kids) ==> x.name in data)
    && (forall d :: d in data ==> d in nodes && nodes[d] in DataNodes(t.kids))
    && |DataNodes(t.kids)| == |data|
    && (PrefixFree(t.kids) <==> NothingExtends(data, data))
  }

  lemma RootIsWhole(nodes: Paths, data: set<Name>, cs: seq<TreeNode>, t: Tree)
    requires [] in nodes && nodes[[]] == t.node && t.node.name == [] && !t.data
    requires Stands(nodes, cs, t.kids) && Holds(nodes, data, cs, t.kids)
    requires Under(data, cs) == data && forall m :: AnyAbove(cs, m) ==> [] < m
    ensures IsWhole(nodes, data, t)
  {
    ApartOne(t);
    if t.kids != [] { CompleteHasData(t.kids); }
    forall x | x in Nodes([t]) ensures x in nodes.Values {
      assert x == t.node || nodes[x.name] == x;
    }
  }

  lemma ReadTree(nodes: Paths, data: set<Name>, root: TreeNode) returns (t: Tree)
    requires [] in nodes && nodes[[]] == root && Grown(nodes, data) && Settled(nodes, data)
    ensures t.node == root && IsWhole(nodes, data, t) && Shape([t])
  {
    hide IsFamily, IsLayer, AnyAbove, InTree, IsWhole, NothingExtends, PrefixFree, Complete, Apart;
    var cs := root.children;
    var bound := LongestName(nodes.Keys);
    FamilyIsLayer(nodes, [], cs);
    var kids := BuildForest(nodes, data, cs, 1, bound);
    t := Tree(root, false, kids);
    BelowIsUnderFamily(nodes, data, [], cs);
    FamilyIsBelow(nodes, [], cs);
    assert Below(data, []) == data;
    RootIsWhole(nodes, data, cs, t);
    ShapeOne(t);
  }

  // ----- whole runs -----

  function NamesOf(l: seq<TreeNode>): (r: seq<Name>)
    ensures |r| == |l| && forall k :: 0 <= k < |l| ==> r[k] == l[k].name
  {
    seq(|l|, k requires 0 <= k < |l| => l[k].name)
  }

  function NameOf(x: TreeNode?): Option<Name> {
    if x == null then None else Some(x.name)
  }

  function ListedNames(l: seq<TreeNode?>): (r: seq<Option<Name>>)
    ensures |r| == |l| && forall k :: 0 <= k < |l| ==> r[k] == NameOf(l[k])
  {
    seq(|l|, k requires 0 <= k < |l| => NameOf(l[k]))
  }

  function SomeNames(l: seq<Name>): (r: seq<Option<Name>>)
    ensures |r| == |l| && forall k :: 0 <= k < |l| ==> r[k] == Some(l[k])
  {
    seq(|l|, k requires 0 <= k < |l| => Some(l[k]))
  }

  lemma CoverIsOnce(names: seq<Name>, data: set<Name>)
    requires |names| == |data| && forall d :: d in data ==> d in names
    ensures multiset(names) == multiset(data)
  {
    assert multiset(data) <= multiset(names);
    assert multiset(names) == multiset(data) + (multiset(names) - multiset(data));
    assert |multiset(names)| == |names|;
  }

  /** The merge lists every registered suffix once. */
  lemma MergeListsEachOnce(nodes: Paths, data: set<Name>, t: Tree)
    requires IsWhole(nodes, data, t) && data != {} && NothingExtends(data, data)
    requires forall n :: n in nodes ==> nodes[n].name == n
    ensures multiset(NamesOf(Order(t))) == multiset(data)
  {
    OrderListsData(t);
    forall d | d in data ensures d in NamesOf(Order(t)) {
      assert nodes[d] in multiset(Order(t));
      var k :| 0 <= k < |Order(t)| && Order(t)[k] == nodes[d];
      assert NamesOf(Order(t))[k] == d;
    }
    CoverIsOnce(NamesOf(Order(t)), data);
  }

  lemma WalkAgainstMerge(nodes: Paths, data: set<Name>, t: Tree, walk: seq<TreeNode?>)
    requires IsWhole(nodes, data, t) && data != {} && Answers(walk) == Simple(t)
    ensures None in ListedNames(walk) <==> !NothingExtends(data, data)
    ensures ListedNames(walk) == SomeNames(NamesOf(Order(t))) <==> NothingExtends(data, data)
  {
    WalkListsNullIff(t);
    if NothingExtends(data, data) {
      WalkIsMergeIff(t);
      forall k | 0 <= k < |walk| ensures NameOf(walk[k]) == Some(Order(t)[k].name) {
        assert Answer(walk[k]) == Answers(walk)[k] == Somes(Order(t))[k];
      }
    } else {
      var k :| 0 <= k < |walk| && Simple(t)[k] == None;
      assert Answer(walk[k]) == Answers(walk)[k];
      assert ListedNames(walk)[k] == None;
    }
  }

  /** Exactly one place of the list holds this name. */
  ghost predicate ListsOnce(walk: seq<Option<Name>>, s: Name) {
    exists k :: 0 <= k < |walk| && walk[k] == Some(s) && forall j :: 0 <= j < |walk| && walk[j] == Some(s) ==> j == k
  }

  lemma CountsTwice(names: seq<Name>, a: nat, b: nat)
    requires a < b < |names| && names[a] == names[b]
    ensures multiset(names)[names[a]] >= 2
  {
    assert names == names[..a] + [names[a]] + names[a + 1..b] + [names[b]] + names[b + 1..];
  }

  lemma OnceInMerge(names: seq<Name>, data: set<Name>, s: Name)
    requires multiset(names) == multiset(data) && s in data
    ensures ListsOnce(SomeNames(names), s)
  {
    assert s in multiset(names);
    var k :| 0 <= k < |names| && names[k] == s;
    assert SomeNames(names)[k] == Some(s);
    forall a, b | 0 <= a < b < |names| && names[a] == names[b] ensures multiset(names)[names[a]] >= 2 {
      CountsTwice(names, a, b);
    }
    assert multiset(names)[s] == 1;
  }

  /** A list that has room for the registered names only and holds all the published ones holds nothing else. */
  lemma {:induction false} ListedFit(walk: seq<Option<Name>>, published: set<Name>)
    requires forall s :: s in published ==> Some(s) in walk
    ensures |published| <= |walk| && (None in walk ==> |published| < |walk|)
  {
    if published == {} {
    } else {
      var s :| s in published;
      var k :| 0 <= k < |walk| && walk[k] == Some(s);
      var rest := walk[..k] + walk[k + 1..];
      forall r | r in published - {s} ensures Some(r) in rest { StaysListed(walk, k, Some(r)); }
      if None in walk { StaysListed(walk, k, None); }
      ListedFit(rest, published - {s});
    }
  }

  lemma StaysListed(walk: seq<Option<Name>>, k: nat, x: Option<Name>)
    requires k < |walk| && x in walk && walk[k] != x
    ensures x in walk[..k] + walk[k + 1..]
  {
    var rest := walk[..k] + walk[k + 1..];
    var j :| 0 <= j < |walk| && walk[j] == x;
    assert rest[if j < k then j else j - 1] == x;
  }

  lemma SubsetOfSameSize(a: set<Name>, b: set<Name>)
    requires a <= b && |a| >= |b|
    ensures a == b
  {
    assert b == a + (b - a);
    assert |b| == |a| + |b - a|;
  }

  /** The walk lists every published suffix exactly once if and only if none of them extends another. */
  lemma ListsPublishedIff(suffixes: seq<Name>, walk: seq<Option<Name>>, merged: seq<Name>)
    requires var data := Registered(suffixes);
      && |walk| == |data| && (None in walk <==> !NothingExtends(data, data))
      && (NothingExtends(data, data) ==> walk == SomeNames(merged) && multiset(merged) == multiset(data))
    ensures (forall s :: s in Published(suffixes) ==> ListsOnce(walk, s)) <==>
      NothingExtends(Published(suffixes), Published(suffixes))
  {
    var data, published := Registered(suffixes), Published(suffixes);
    AllAreRegisteredIff(suffixes);
    RegisteredIsPublished(suffixes);
    if data == published && NothingExtends(data, data) {
      forall s | s in published ensures ListsOnce(walk, s) { OnceInMerge(merged, data, s); }
    }
    if forall s :: s in published ==> ListsOnce(walk, s) {
      ListedFit(walk, published);
      SubsetOfSameSize(data, published);
    }
  }

  predicate IsEnabled(infomaxType: int) {
    infomaxType == INFOMAX_SIMPLE_PRIORITY || infomaxType == INFOMAX_MERGE_PRIORITY
  }

  ghost function RegisteredBy(infomaxType: int, suffixes: seq<Name>): set<Name> {
    if IsEnabled(infomaxType) then Registered(suffixes) else {}
  }

  method PublishAll(infomaxType: int, suffixes: seq<Name>) returns (p: Producer)
    ensures fresh(p) && p.Valid() && fresh(p.nodes.Values) && p.data == RegisteredBy(infomaxType, suffixes)
  {
    hide Grown, Settled;
    p := new Producer(infomaxType);
    for k := 0 to |suffixes|
      invariant p.Valid() && fresh(p.nodes.Values) && p.infomaxType == infomaxType
      invariant p.data == RegisteredBy(infomaxType, suffixes[..k])
    {
      assert suffixes[..k + 1][..k] == suffixes[..k];
      p.Publish(suffixes[k]);
    }
    assert suffixes[..|suffixes|] == suffixes;
  }

  /** Publish, then list by both prioritizers.  The lists agree exactly when no registered suffix extends another,
      and then hold every registered suffix once; otherwise the walk lists a null.  And the walk lists every published
      suffix exactly once if and only if no published suffix extends another. */
  method PublishAndPrioritize(infomaxType: int, suffixes: seq<Name>)
    returns (walk: seq<Option<Name>>, merged: seq<Name>)
    ensures var data := RegisteredBy(infomaxType, suffixes);
      && (data == {} ==> walk == [] && merged == [[]])
      && (data != {} ==> (walk == SomeNames(merged) <==> NothingExtends(data, data)))
      && (data != {} ==> (None in walk <==> !NothingExtends(data, data)))
      && (data != {} && NothingExtends(data, data) ==> multiset(merged) == multiset(data))
    ensures var published := Published(suffixes); IsEnabled(infomaxType) ==>
      ((forall s :: s in published ==> ListsOnce(walk, s)) <==> NothingExtends(published, published))
  {
    var p := PublishAll(infomaxType, suffixes);
    ghost var nodes, data := p.nodes, p.data;
    ghost var t := ReadTree(nodes, data, p.infomaxRoot);
    var byWalk := SimplePrioritizer(p.infomaxRoot, t);
    var byMerge := MergeSort(p.infomaxRoot, t);
    walk, merged := ListedNames(byWalk), NamesOf(byMerge);
    if data != {} {
      WalkAgainstMerge(nodes, data, t, byWalk);
      if NothingExtends(data, data) { MergeListsEachOnce(nodes, data, t); }
      if IsEnabled(infomaxType) { ListsPublishedIff(suffixes, walk, merged); }
    } else {
      RegisteredIsPublished(suffixes);
    }
  }
}
