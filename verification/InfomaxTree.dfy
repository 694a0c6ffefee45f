/** The producer's InfoMax tree as suffixes are published. */
module InfomaxTree {
  import opened Names
  import opened TreeNodes

  const INFOMAX_INTEREST_TAG := Component(GENERIC_COMPONENT, [73, 110, 102, 111, 77, 97, 120])

  // ----- what is registered -----

  /** InfoMax lists and meta information stay out of the tree. */
  predicate Tagged(suffix: Name) {
    exists k :: 0 <= k < |suffix| && suffix[k] == INFOMAX_INTEREST_TAG
  }

  /** The component that reads "InfoMax", anywhere in the suffix. */
  predicate CarriesTag(suffix: Name, before: Name, after: Name) {
    suffix == before + [Component(8, [73, 110, 102, 111, 77, 97, 120])] + after
  }

  ghost predicate NamesAList(suffix: Name) {
    exists before, after :: CarriesTag(suffix, before, after)
  }

  lemma TaggedIff(suffix: Name)
    ensures Tagged(suffix) <==> NamesAList(suffix)
  {
    if Tagged(suffix) {
      var k :| 0 <= k < |suffix| && suffix[k] == INFOMAX_INTEREST_TAG;
      assert CarriesTag(suffix, suffix[..k], suffix[k + 1..]);
    }
    if before, after :| CarriesTag(suffix, before, after) {
      assert suffix[|before|] == INFOMAX_INTEREST_TAG;
    }
  }

  /** The root, and every prefix of a registered suffix. */
  ghost predicate InTree(data: set<Name>, n: Name) {
    n == [] || exists d :: d in data && n <= d
  }

  /** A suffix whose node exists already, say as a prefix of another one, is not registered. */
  ghost function Register(data: set<Name>, suffix: Name): set<Name> {
    if Tagged(suffix) || InTree(data, suffix) then data else data + {suffix}
  }

  ghost function Registered(suffixes: seq<Name>): set<Name> {
    if suffixes == [] then {} else Register(Registered(suffixes[..|suffixes| - 1]), suffixes[|suffixes| - 1])
  }

  /** A name published, under a suffix without tag, at or below n. */
  ghost predicate Covers(suffixes: seq<Name>, n: Name) {
    exists k :: 0 <= k < |suffixes| && !Tagged(suffixes[k]) && n <= suffixes[k]
  }

  lemma CoversLast(suffixes: seq<Name>, n: Name)
    requires suffixes != []
    ensures var last := |suffixes| - 1;
      Covers(suffixes, n) <==> Covers(suffixes[..last], n) || (!Tagged(suffixes[last]) && n <= suffixes[last])
  {
    assert forall k :: 0 <= k < |suffixes| - 1 ==> suffixes[..|suffixes| - 1][k] == suffixes[k];
  }

  /** The tree holds exactly the prefixes of what was published. */
  lemma {:induction false} TreeHoldsPrefixes(suffixes: seq<Name>, n: Name)
    ensures InTree(Registered(suffixes), n) <==> n == [] || Covers(suffixes, n)
  {
    if suffixes != [] {
      var last := |suffixes| - 1;
      var before := Registered(suffixes[..last]);
      TreeHoldsPrefixes(suffixes[..last], n);
      TreeHoldsPrefixes(suffixes[..last], suffixes[last]);
      CoversLast(suffixes, n);
      if InTree(before, suffixes[last]) && n <= suffixes[last] { InTreeBelow(before, n, suffixes[last]); }
    }
  }

  lemma InTreeBelow(data: set<Name>, n: Name, m: Name)
    requires InTree(data, m) && n <= m
    ensures InTree(data, n)
  {
    if m != [] {
      var d :| d in data && m <= d;
      assert n <= d;
    }
  }

  /** A suffix is registered if and only if, at some time it was published, nothing at or below it had been before. */
  lemma {:induction false} RegisteredIff(suffixes: seq<Name>, s: Name)
    ensures s in Registered(suffixes) <==>
      s != [] && !Tagged(s) && exists k :: 0 <= k < |suffixes| && suffixes[k] == s && !Covers(suffixes[..k], s)
  {
    if suffixes != [] {
      var last := |suffixes| - 1;
      var rest := suffixes[..last];
      RegisteredIff(rest, s);
      TreeHoldsPrefixes(rest, suffixes[last]);
      assert forall k :: 0 <= k < last ==> rest[k] == suffixes[k] && rest[..k] == suffixes[..k];
    }
  }

  /** The lists of InfoMax are not registered themselves, wherever in the name the tag is. */
  lemma ListsAreNotRegistered(suffixes: seq<Name>, before: Name, after: Name)
    ensures Registered(suffixes + [before + [Component(8, [73, 110, 102, 111, 77, 97, 120])] + after]) == Registered(suffixes)
  {
    var suffix := before + [Component(8, [73, 110, 102, 111, 77, 97, 120])] + after;
    assert CarriesTag(suffix, before, after);
    TaggedIff(suffix);
    assert (suffixes + [suffix])[..|suffixes|] == suffixes;
  }

  /** The suffixes InfoMax has to list: published, not empty, and without tag. */
  ghost function Published(suffixes: seq<Name>): set<Name> {
    set s | s in suffixes && s != [] && !Tagged(s)
  }

  lemma PublishedIff(suffixes: seq<Name>, s: Name)
    ensures s in Published(suffixes) <==> s in suffixes && s != [] && !NamesAList(s)
  {
    TaggedIff(s);
  }

  /** Anything to list leads to something registered. */
  lemma RegisteredIsPublished(suffixes: seq<Name>)
    ensures Registered(suffixes) <= Published(suffixes)
    ensures Registered(suffixes) == {} ==> Published(suffixes) == {}
  {
    forall s | s in Registered(suffixes) ensures s in Published(suffixes) {
      RegisteredIff(suffixes, s);
    }
    if s :| s in Published(suffixes) {
      var k :| 0 <= k < |suffixes| && suffixes[k] == s;
      assert Covers(suffixes, s);
      TreeHoldsPrefixes(suffixes, s);
    }
  }

  // ----- prefix-free publications -----

  /** The registered suffixes strictly below a name. */
  ghost function Below(data: set<Name>, n: Name): set<Name> {
    set d | d in data && n < d
  }

  ghost predicate NothingExtends(data: set<Name>, some: set<Name>) {
    forall d :: d in some ==> Below(data, d) == {}
  }

  /** No published suffix extends another if and only if all of them are registered and none of those extends another. */
  lemma AllAreRegisteredIff(suffixes: seq<Name>)
    ensures var published, data := Published(suffixes), Registered(suffixes);
      NothingExtends(published, published) <==> data == published && NothingExtends(data, data)
  {
    RegisteredIsPublished(suffixes);
    var published := Published(suffixes);
    if NothingExtends(published, published) {
      forall s | s in published ensures s in Registered(suffixes) {
        var k := FirstOf(suffixes, s);
        assert forall j :: 0 <= j < k ==> suffixes[..k][j] == suffixes[j] && suffixes[j] != s;
        forall j | 0 <= j < k && !Tagged(suffixes[j]) ensures !(s <= suffixes[j]) {
          NothingBelowIt(published, s, suffixes[j]);
        }
        RegisteredIff(suffixes, s);
      }
    }
  }

  lemma NothingBelowIt(data: set<Name>, s: Name, n: Name)
    requires Below(data, s) == {}
    ensures n in data ==> !(s < n)
  {
    assert n in Below(data, s) <==> n in data && s < n;
  }

  lemma {:induction false} FirstOf(suffixes: seq<Name>, s: Name) returns (k: nat)
    requires s in suffixes
    ensures k < |suffixes| && suffixes[k] == s && s !in suffixes[..k]
  {
    k :| k < |suffixes| && suffixes[k] == s;
    if s in suffixes[..k] {
      var j := FirstOf(suffixes[..k], s);
      assert suffixes[..k][..j] == suffixes[..j];
      k := j;
    }
  }

  // ----- the tree in memory -----

  /** The children of n are the nodes one component below it, each once. */
  ghost predicate IsFamily(nodes: Paths, n: Name, cs: seq<TreeNode>) {
    && (forall k :: 0 <= k < |cs| ==> IsChild(nodes, n, cs[k]))
    && (forall j, k :: 0 <= j < k < |cs| ==> cs[j].name != cs[k].name)
    && (forall m {:trigger Up(m)} :: m in nodes && m != [] && Up(m) == n ==> nodes[m] in cs)
  }

  ghost predicate IsChild(nodes: Paths, n: Name, c: TreeNode) {
    c.name != [] && Up(c.name) == n && c.name in nodes && nodes[c.name] == c
  }

  ghost predicate Families(nodes: Paths)
    reads nodes.Values
  {
    forall n :: n in nodes ==> IsFamily(nodes, n, nodes[n].children)
  }

  /** Exactly the registered suffixes are marked as data, and every size counts those strictly below. */
  ghost predicate Sized(nodes: Paths, data: set<Name>)
    reads nodes.Values
  {
    && (forall n {:trigger nodes[n]} :: n in nodes ==> nodes[n].dataNode == (n in data))
    && (forall n {:trigger nodes[n]} :: n in nodes ==> nodes[n].treeSize == |Below(data, n)|)
  }

  ghost predicate Grown(nodes: Paths, data: set<Name>)
    reads nodes.Values
  {
    Rooted(nodes) && Families(nodes) && Sized(nodes, data)
  }

  lemma BelowAfter(data: set<Name>, s: Name, n: Name)
    requires s !in data
    ensures |Below(data + {s}, n)| == |Below(data, n)| + if n < s then 1 else 0
  {
    if n < s {
      assert Below(data + {s}, n) == Below(data, n) + {s};
    } else {
      assert Below(data + {s}, n) == Below(data, n);
    }
  }

  lemma SizeAfter(data: set<Name>, n: Name, isData: bool, m: Name)
    requires n !in data && n != [] && Below(data, n) == {}
    ensures |Below(if isData then data + {n} else data, m)| == if m == n then 0 else
      |Below(data, m)| + if isData && m <= Up(n) then 1 else 0
  {
    BelowAfter(data, n, m);
    PrefixUp(m, n);
  }

  lemma FamilyKept(nodes: Paths, m: Name, cs: seq<TreeNode>, n: Name, curr: TreeNode)
    requires IsFamily(nodes, m, cs) && n != [] && n !in nodes && Up(n) != m
    ensures IsFamily(nodes[n := curr], m, cs)
  {}

  lemma FamilyGrows(nodes: Paths, cs: seq<TreeNode>, n: Name, curr: TreeNode)
    requires n != [] && n !in nodes && curr.name == n && IsFamily(nodes, Up(n), cs)
    ensures IsFamily(nodes[n := curr], Up(n), cs + [curr])
  {
    var after, cs' := nodes[n := curr], cs + [curr];
    assert cs'[|cs|] == curr;
    forall m | m in after && m != [] && Up(m) == Up(n) ensures after[m] in cs' {
      assert m != n ==> nodes[m] in cs;
    }
  }

  lemma FamiliesGrow(nodes: Paths, kids: map<Name, seq<TreeNode>>, n: Name, curr: TreeNode)
    requires n != [] && n !in nodes && Up(n) in nodes && kids.Keys == nodes.Keys
    requires forall m :: m in nodes && m != [] ==> Up(m) != n
    requires forall m :: m in kids ==> IsFamily(nodes, m, kids[m])
    requires curr.name == n && curr.children == []
    requires forall m :: m in kids ==> nodes[m].children == kids[m] + if m == Up(n) then [curr] else []
    ensures Families(nodes[n := curr])
  {
    var after := nodes[n := curr];
    forall m | m in after ensures IsFamily(after, m, after[m].children) {
      if m == Up(n) {
        FamilyGrows(nodes, kids[m], n, curr);
      } else if m != n {
        assert after[m].children == kids[m];
        FamilyKept(nodes, m, kids[m], n, curr);
      }
    }
  }

  lemma RootedGrows(nodes: Paths, n: Name, curr: TreeNode)
    requires Rooted(nodes) && n != [] && n !in nodes && Up(n) in nodes
    requires curr.name == n && curr.parent == nodes[Up(n)]
    ensures Rooted(nodes[n := curr])
  {}

  lemma SizesGrow(nodes: Paths, data: set<Name>, n: Name, isData: bool, curr: TreeNode)
    requires n != [] && n !in nodes && n !in data && Below(data, n) == {}
    requires curr.dataNode == isData && curr.treeSize == 0
    requires forall m {:trigger nodes[m]} :: m in nodes ==> nodes[m].dataNode == (m in data)
    requires forall m {:trigger nodes[m]} :: m in nodes ==>
      nodes[m].treeSize == |Below(data, m)| + if isData && m <= Up(n) then 1 else 0
    ensures Sized(nodes[n := curr], if isData then data + {n} else data)
  {
    var after, data' := nodes[n := curr], if isData then data + {n} else data;
    forall m | m in after ensures after[m].dataNode == (m in data') && after[m].treeSize == |Below(data', m)| {
      SizeAfter(data, n, isData, m);
    }
  }

  method Attach(prev: TreeNode, n: Name, isData: bool, ghost nodes: Paths) returns (curr: TreeNode)
    requires Rooted(nodes) && n != [] && n !in nodes && Up(n) in nodes && prev == nodes[Up(n)]
    modifies prev`children, nodes.Values`treeSize
    ensures fresh(curr) && curr.name == n && curr.parent == prev
    ensures curr.children == [] && curr.dataNode == isData && curr.treeSize == 0
    ensures prev.children == old(prev.children) + [curr]
    ensures forall m {:trigger nodes[m]} :: m in nodes ==>
      nodes[m].treeSize == old(nodes[m].treeSize) + if isData && m <= Up(n) then 1 else 0
  {
    hide Up;
    curr := new TreeNode(n, prev);
    if isData {
      curr.dataNode := true;
    }
    var _ := prev.AddChild(curr, nodes);
  }

  /** A new node below prev. */
  method Graft(prev: TreeNode, n: Name, isData: bool, ghost nodes: Paths, ghost data: set<Name>) returns (curr: TreeNode)
    requires Grown(nodes, data) && n != [] && n !in nodes && Up(n) in nodes && prev == nodes[Up(n)]
    requires n !in data && Below(data, n) == {} && forall m :: m in nodes && m != [] ==> Up(m) != n
    modifies prev`children, nodes.Values`treeSize
    ensures fresh(curr) && curr.name == n
    ensures Grown(nodes[n := curr], if isData then data + {n} else data)
  {
    hide IsFamily, Up, Below;
    ghost var kids := map m | m in nodes :: nodes[m].children;
    curr := Attach(prev, n, isData, nodes);
    assert forall m :: m in kids && m != Up(n) ==> nodes[m] != prev;
    FamiliesGrow(nodes, kids, n, curr);
    SizesGrow(nodes, data, n, isData, curr);
    RootedGrows(nodes, n, curr);
  }

  /** The child with a name, if there is one. */
  method FindChild(children: seq<TreeNode>, n: Name) returns (curr: TreeNode?)
    ensures curr == null ==> forall c :: c in children ==> c.name != n
    ensures curr != null ==> curr in children && curr.name == n
  {
    curr := null;
    for j := 0 to |children|
      invariant curr == null && forall k :: 0 <= k < j ==> children[k].name != n
    {
      if children[j].name == n {
        curr := children[j];
        break;
      }
    }
  }

  lemma ChildIsFound(nodes: Paths, n: Name, cs: seq<TreeNode>, curr: TreeNode?)
    requires n != [] && IsFamily(nodes, Up(n), cs) && forall m :: m in nodes ==> nodes[m].name == m
    requires if curr == null then forall c :: c in cs ==> c.name != n else curr in cs && curr.name == n
    ensures curr == null <==> n !in nodes
    ensures curr != null ==> curr == nodes[n]
  {}

  /** Nothing lies below a name outside the tree. */
  lemma NothingBelow(nodes: Paths, data: set<Name>, n: Name)
    requires Rooted(nodes) && !InTree(data, n) && n !in nodes
    ensures n != [] && n !in data && Below(data, n) == {} && forall m :: m in nodes && m != [] ==> Up(m) != n
  {
    assert forall d :: d in data ==> !(n <= d);
  }

  /** How far along the path of a suffix the tree has come. */
  ghost predicate OnPath(nodes0: Paths, data0: set<Name>, nodes: Paths, data: set<Name>, suffix: Name, i: nat)
    requires i <= |suffix|
  {
    && (forall n :: n in nodes <==> n in nodes0 || n <= suffix[..i])
    && data == if i < |suffix| || suffix in nodes0 then data0 else data0 + {suffix}
  }

  lemma PathStep(nodes0: Paths, data0: set<Name>, nodes: Paths, data: set<Name>, suffix: Name, i: nat, curr: TreeNode)
    requires i < |suffix| && OnPath(nodes0, data0, nodes, data, suffix, i)
    ensures var n := suffix[..i + 1];
      n !in nodes ==>
        OnPath(nodes0, data0, nodes[n := curr], if n == suffix then data + {suffix} else data, suffix, i + 1)
    ensures suffix[..i + 1] in nodes ==> OnPath(nodes0, data0, nodes, data, suffix, i + 1)
  {
    assert Up(suffix[..i + 1]) == suffix[..i];
    forall m | m in nodes || m == suffix[..i + 1] ensures m <= suffix[..i + 1] <==> m == suffix[..i + 1] || m <= suffix[..i] {}
    assert suffix[..|suffix|] == suffix;
  }

  /** A tree that holds exactly the prefixes of what is registered. */
  ghost predicate Settled(nodes: Paths, data: set<Name>) {
    && [] !in data
    && (forall n :: n in nodes ==> InTree(data, n))
    && (forall n {:trigger InTree(data, n)} :: InTree(data, n) ==> n in nodes)
  }

  lemma PathSettles(nodes0: Paths, data0: set<Name>, nodes: Paths, data: set<Name>, suffix: Name)
    requires Settled(nodes0, data0) && OnPath(nodes0, data0, nodes, data, suffix, |suffix|) && !Tagged(suffix)
    ensures Settled(nodes, data) && data == Register(data0, suffix)
  {
    assert suffix[..|suffix|] == suffix && InTree(data0, []);
    forall n ensures InTree(data, n) <==> InTree(data0, n) || n <= suffix {
      if InTree(data0, suffix) && n <= suffix { InTreeBelow(data0, n, suffix); }
    }
  }

  /** The node one component further down the path of a suffix, made when it is missing. */
  method StepDown(suffix: Name, i: nat, prev: TreeNode, ghost nodes: Paths, ghost data: set<Name>)
    returns (curr: TreeNode, ghost nodes': Paths, ghost data': set<Name>)
    requires 1 <= i <= |suffix| && Up(suffix[..i]) in nodes && prev == nodes[Up(suffix[..i])]
    requires Grown(nodes, data) && (suffix[..i] !in nodes ==> !InTree(data, suffix[..i]))
    modifies prev`children, nodes.Values`treeSize
    ensures Grown(nodes', data') && fresh(nodes'.Values - nodes.Values) && suffix[..i] in nodes'
    ensures suffix[..i] in nodes ==> curr == nodes[suffix[..i]] && nodes' == nodes && data' == data
    ensures suffix[..i] !in nodes ==> nodes' == nodes[suffix[..i] := curr]
    ensures suffix[..i] !in nodes ==> data' == if suffix[..i] == suffix then data + {suffix} else data
  {
    var n := suffix[..i];
    nodes', data' := nodes, data;
    var found := FindChild(prev.children, n);
    ChildIsFound(nodes, n, prev.children, found);
    if found != null {
      curr := found;
    } else {
      NothingBelow(nodes, data, n);
      curr := Graft(prev, n, n == suffix, nodes, data);
      nodes', data' := nodes[n := curr], if n == suffix then data + {n} else data;
    }
  }

  /** The path of a suffix is walked, and made where it is missing. */
  method WalkPath(root: TreeNode, suffix: Name, ghost nodes0: Paths, ghost data0: set<Name>)
    returns (ghost nodes: Paths, ghost data: set<Name>)
    requires [] in nodes0 && nodes0[[]] == root && Grown(nodes0, data0) && Settled(nodes0, data0) && !Tagged(suffix)
    modifies nodes0.Values
    ensures [] in nodes && nodes[[]] == root && Grown(nodes, data) && Settled(nodes, data)
    ensures fresh(nodes.Values - nodes0.Values) && data == Register(data0, suffix)
  {
    hide Grown, Register;
    nodes, data := nodes0, data0;
    var prev := root;
    for i := 1 to |suffix| + 1
      invariant Grown(nodes, data) && suffix[..i - 1] in nodes && prev == nodes[suffix[..i - 1]]
      invariant fresh(nodes.Values - nodes0.Values) && [] in nodes && nodes[[]] == root
      invariant OnPath(nodes0, data0, nodes, data, suffix, i - 1)
    {
      assert Up(suffix[..i]) == suffix[..i - 1];
      ghost var nodes1, data1 := nodes, data;
      prev, nodes, data := StepDown(suffix, i, prev, nodes, data);
      PathStep(nodes0, data0, nodes1, data1, suffix, i - 1, prev);
    }
    PathSettles(nodes0, data0, nodes, data, suffix);
  }

  class Producer {
    var infomaxType: int
    var isNewInfomaxData: bool
    const infomaxRoot: TreeNode
    ghost var nodes: Paths       // the tree, by name
    ghost var data: set<Name>    // the registered suffixes

    ghost predicate Valid()
      reads this, nodes.Values
    {
      [] in nodes && nodes[[]] == infomaxRoot && Grown(nodes, data) && Settled(nodes, data)
    }

    constructor (infomaxType: int)
      ensures Valid() && data == {} && this.infomaxType == infomaxType && !isNewInfomaxData
      ensures fresh(nodes.Values)
    {
      var root := new TreeNode([], null);
      this.infomaxType, isNewInfomaxData, infomaxRoot := infomaxType, false, root;
      nodes, data := map[[] := root], {};
    }

    predicate Enabled()
      reads this
    {
      infomaxType == INFOMAX_MERGE_PRIORITY || infomaxType == INFOMAX_SIMPLE_PRIORITY
    }

    /** The path of a suffix is in the tree, and the suffix registered unless it was. */
    method Grow(suffix: Name)
      requires Valid() && !Tagged(suffix)
      modifies this`nodes, this`data, nodes.Values
      ensures Valid() && fresh(nodes.Values - old(nodes.Values)) && data == Register(old(data), suffix)
      ensures data == if suffix in old(nodes) then old(data) else old(data) + {suffix}
      ensures suffix in nodes && nodes[suffix].dataNode == (suffix in data)
    {
      nodes, data := WalkPath(infomaxRoot, suffix, nodes, data);
      assert InTree(data, suffix);
    }

    /** The InfoMax part of produce. */
    method Publish(suffix: Name)
      requires Valid()
      modifies this, nodes.Values
      ensures Valid() && infomaxType == old(infomaxType) && fresh(nodes.Values - old(nodes.Values))
      ensures data == if Enabled() then Register(old(data), suffix) else old(data)
      ensures isNewInfomaxData == (old(isNewInfomaxData) || (Enabled() && !NamesAList(suffix)))
      ensures NamesAList(suffix) || !Enabled() ==>
        nodes == old(nodes) && data == old(data) && forall x :: x in old(nodes.Values) ==> unchanged(x)
      ensures Enabled() && !NamesAList(suffix) ==>
        data == (if suffix in old(nodes) then old(data) else old(data) + {suffix}) &&
        suffix in nodes && nodes[suffix].dataNode == (suffix in data)
    {
      hide Grown, Settled, Tagged, NamesAList;
      TaggedIff(suffix);
      if Tagged(suffix) {
        return;
      }
      if Enabled() {
        isNewInfomaxData := true;
        Grow(suffix);
      }
    }
  }
}
