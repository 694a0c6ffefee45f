/** The two InfoMax prioritizers as they run on the tree in memory. */
module Infomax {
  import opened Options
  import opened RoundRobin
  import opened TreeNodes
  import opened InfomaxOrder

  function Roots(ks: seq<Tree>): (r: seq<TreeNode>)
    ensures |r| == |ks| && forall j :: 0 <= j < |ks| ==> r[j] == ks[j].node
  {
    seq(|ks|, j requires 0 <= j < |ks| => ks[j].node)
  }

  /** The nodes in memory form this forest, with correct sizes. */
  ghost predicate Shape(ks: seq<Tree>)
    reads Nodes(ks)
  {
    ks != [] ==>
      && ks[0].node.children == Roots(ks[0].kids) && ks[0].node.dataNode == ks[0].data
      && ks[0].node.treeSize == |DataNodes(ks[0].kids)|
      && Shape(ks[0].kids) && Shape(ks[1..])
  }

  /** The counts and marks after the given numbers of calls. */
  ghost predicate Progress(ks: seq<Tree>, calls: seq<nat>)
    requires |calls| == |ks|
    reads Nodes(ks)
  {
    ks != [] ==>
      && ks[0].node.revisionCount == calls[0] && (ks[0].node.isMarked <==> ks[0].data && calls[0] > 0)
      && Progress(ks[0].kids, KidCounts(ks[0], calls[0])) && Progress(ks[1..], calls[1..])
  }

  lemma {:induction false} NodesAreAllocated(ks: seq<Tree>)
    ensures forall x :: x in Nodes(ks) ==> allocated(x)
  {
    if ks != [] {
      NodesAreAllocated(ks[0].kids);
      NodesAreAllocated(ks[1..]);
    }
  }

  lemma {:induction false} ShapeAt(ks: seq<Tree>, j: nat)
    requires j < |ks| && Shape(ks)
    ensures Shape([ks[j]])
  {
    if j > 0 { ShapeAt(ks[1..], j - 1); }
  }

  lemma {:induction false} ShapeParts(ks: seq<Tree>)
    requires forall j :: 0 <= j < |ks| ==> Shape([ks[j]])
    ensures Shape(ks)
  {
    if ks != [] {
      assert Shape([ks[0]]);
      forall j | 0 <= j < |ks[1..]| ensures Shape([ks[1..][j]]) { assert ks[1..][j] == ks[j + 1]; }
      ShapeParts(ks[1..]);
    }
  }

  lemma {:induction false} ProgressAt(ks: seq<Tree>, calls: seq<nat>, j: nat)
    requires j < |ks| == |calls| && Progress(ks, calls)
    ensures Progress([ks[j]], [calls[j]])
  {
    if j > 0 { ProgressAt(ks[1..], calls[1..], j - 1); }
  }

  lemma {:induction false} ProgressParts(ks: seq<Tree>, calls: seq<nat>)
    requires |ks| == |calls| && forall j :: 0 <= j < |ks| ==> Progress([ks[j]], [calls[j]])
    ensures Progress(ks, calls)
  {
    if ks != [] {
      assert Progress([ks[0]], [calls[0]]);
      forall j | 0 <= j < |ks[1..]| ensures Progress([ks[1..][j]], [calls[1..][j]]) {
        assert ks[1..][j] == ks[j + 1] && calls[1..][j] == calls[j + 1];
      }
      ProgressParts(ks[1..], calls[1..]);
    }
  }

  lemma ShapeOne(t: Tree)
    ensures Shape([t]) <==> (t.node.children == Roots(t.kids) && t.node.dataNode == t.data
                             && t.node.treeSize == |DataNodes(t.kids)| && Shape(t.kids))
  {
    assert [t][1..] == [];
  }

  lemma ProgressOne(t: Tree, n: nat)
    ensures Progress([t], [n]) <==> (t.node.revisionCount == n && (t.node.isMarked <==> t.data && n > 0)
                                     && Progress(t.kids, KidCounts(t, n)))
  {
    assert [t][1..] == [] && [n][1..] == [];
  }

  lemma ApartOne(t: Tree)
    ensures Apart([t]) <==> t.node !in Nodes(t.kids) && Apart(t.kids)
    ensures Nodes([t]) == {t.node} + Nodes(t.kids)
  {
    assert [t][1..] == [];
  }

  lemma DisjointKids(ks: seq<Tree>, j: nat)
    requires Apart(ks) && j < |ks|
    ensures Nodes([ks[j]]) <= Nodes(ks) && Apart([ks[j]])
    ensures forall i :: 0 <= i < |ks| && i != j ==> Nodes([ks[i]]) !! Nodes([ks[j]])
  {
    At(ks, j);
    forall i | 0 <= i < |ks| && i != j ensures Nodes([ks[i]]) !! Nodes([ks[j]]) {
      if i < j { DisjointAt(ks, i, j); } else { DisjointAt(ks, j, i); }
    }
  }

  /** Back to no calls. */
  method ResetNodeStatus(node: TreeNode, ghost t: Tree)
    requires node == t.node && Apart([t]) && Shape([t])
    modifies Nodes([t])
    ensures Shape([t]) && Progress([t], [0])
    decreases t, 0
  {
    ApartOne(t);
    ShapeOne(t);
    node.revisionCount := 0;
    node.isMarked := false;
    var children := node.children;
    if |children| > 0 {
      ResetChildren(children, t.kids);
    }
    ShapeOne(t);
    ProgressOne(t, 0);
  }

  method ResetChildren(children: seq<TreeNode>, ghost ks: seq<Tree>)
    requires children == Roots(ks) && Apart(ks) && Shape(ks)
    modifies Nodes(ks)
    ensures Shape(ks) && Progress(ks, seq(|ks|, _ => 0))
    decreases ks, 1
  {
    forall j | 0 <= j < |ks| ensures Shape([ks[j]]) { ShapeAt(ks, j); }
    NodesAreAllocated(ks);
    for i := 0 to |children|
      invariant forall j :: 0 <= j < |ks| ==> Shape([ks[j]])
      invariant forall j :: 0 <= j < i ==> Progress([ks[j]], [0])
    {
      DisjointKids(ks, i);
      label before:
      ResetNodeStatus(children[i], ks[i]);
      forall j | 0 <= j < |ks| && j != i
        ensures Shape([ks[j]]) && (j < i ==> Progress([ks[j]], [0]))
      {
        var one := [ks[j]];
        assert Nodes(one) !! Nodes([ks[i]]);
        assert old@before(Shape(one)) && (j < i ==> old@before(Progress(one, [0])));
        assert Nodes(one) <= Nodes(ks) by { At(ks, j); }
        assert Shape(one) && (j < i ==> Progress(one, [0]));
      }
    }
    ShapeParts(ks);
    ProgressParts(ks, seq(|ks|, _ => 0));
  }

  /** The child with the least revision count among those below their size or never asked; the first such. */
  method LeastServed(children: seq<TreeNode>, ghost ks: seq<Tree>, ghost calls: seq<nat>)
    returns (nodeWithLeastCount: TreeNode?)
    requires children == Roots(ks) && Shape(ks) && |calls| == |ks| && Progress(ks, calls)
    ensures match Pick(Caps(ks), calls)
      case None => nodeWithLeastCount == null
      case Some(j) => nodeWithLeastCount == ks[j].node
  {
    hide Shape, Progress, Apart, Nodes;
    nodeWithLeastCount := null;
    var leastRevisionCountNow := 0;
    NodesAreAllocated(ks);
    for i := 0 to |children|
      invariant Shape(ks) && Progress(ks, calls)
      invariant match PickAmong(Caps(ks), calls, i)
        case None => nodeWithLeastCount == null
        case Some(j) => nodeWithLeastCount == ks[j].node && leastRevisionCountNow == calls[j]
    {
      var child := children[i];
      Eligible(ks, calls, i);
      if child.revisionCount < child.treeSize || child.revisionCount == 0 {
        if nodeWithLeastCount == null || leastRevisionCountNow > child.revisionCount {
          nodeWithLeastCount := child;
          leastRevisionCountNow := child.revisionCount;
        }
      }
    }
  }

  lemma Eligible(ks: seq<Tree>, calls: seq<nat>, i: nat)
    requires Shape(ks) && |calls| == |ks| && Progress(ks, calls) && i < |ks|
    ensures ks[i].node.revisionCount == calls[i]
    ensures calls[i] < Cap(ks[i]) <==> calls[i] < ks[i].node.treeSize || calls[i] == 0
  {
    ShapeAt(ks, i);
    ProgressAt(ks, calls, i);
    ShapeOne(ks[i]);
    ProgressOne(ks[i], calls[i]);
  }

  function Answer(x: TreeNode?): Option<TreeNode> {
    if x == null then None else Some(x)
  }

  /** One call of the counting walk, on any tree: call number n answers Nth and leaves n + 1 calls behind. */
  method GetNextPriorityNode(root: TreeNode, ghost t: Tree, ghost n: nat) returns (next: TreeNode?)
    requires root == t.node && Apart([t]) && Shape([t]) && Progress([t], [n])
    modifies Nodes([t])
    ensures Shape([t]) && Progress([t], [n + 1]) && Answer(next) == Nth(t, n)
    decreases t, 1
  {
    var answers := CountCall(root, t, n);
    next := root;
    if !answers {
      next := AskChildren(root.children, t, n);
    }
    ShapeOne(t);
    ProgressOne(t, n + 1);
  }

  /** Counts the call; a data node answers its first one itself. */
  method CountCall(root: TreeNode, ghost t: Tree, ghost n: nat) returns (answers: bool)
    requires root == t.node && Apart([t]) && Shape([t]) && Progress([t], [n])
    modifies root
    ensures root !in Nodes(t.kids) && Nodes([t]) == {root} + Nodes(t.kids) && Apart(t.kids)
    ensures root.children == Roots(t.kids) && root.dataNode == t.data && root.treeSize == |DataNodes(t.kids)|
    ensures root.revisionCount == n + 1 && root.isMarked == t.data && answers == (t.data && n == 0)
    ensures Shape(t.kids) && Progress(t.kids, KidCounts(t, n))
    ensures answers ==> Progress(t.kids, KidCounts(t, n + 1)) && Nth(t, n) == Some(root)
  {
    ApartOne(t);
    ShapeOne(t);
    ProgressOne(t, n);
    root.revisionCount := root.revisionCount + 1;
    answers := root.dataNode && !root.isMarked;
    if answers {
      root.isMarked := true;
    }
  }

  method AskChildren(children: seq<TreeNode>, ghost t: Tree, ghost n: nat) returns (next: TreeNode?)
    requires children == Roots(t.kids) && !(t.data && n == 0)
    requires Apart(t.kids) && Shape(t.kids) && Progress(t.kids, KidCounts(t, n))
    modifies Nodes(t.kids)
    ensures Shape(t.kids) && Progress(t.kids, KidCounts(t, n + 1)) && Answer(next) == Nth(t, n)
    decreases t, 0
  {
    next := null;
    NodesAreAllocated(t.kids);
    KidCountsAfterCall(t, n);
    ghost var kc := KidCounts(t, n);
    assert Progress(t.kids, kc);
    if |children| > 0 {
      var nodeWithLeastCount := LeastServed(children, t.kids, kc);
      if nodeWithLeastCount != null {
        next := AskChild(nodeWithLeastCount, t.kids, kc, Asked(t, n).value);
      }
    }
  }

  method AskChild(child: TreeNode, ghost ks: seq<Tree>, ghost calls: seq<nat>, ghost j: nat) returns (next: TreeNode?)
    requires j < |ks| == |calls| && child == ks[j].node && Apart(ks) && Shape(ks) && Progress(ks, calls)
    modifies Nodes(ks)
    ensures Shape(ks) && Progress(ks, calls[j := calls[j] + 1]) && Answer(next) == Nth(ks[j], calls[j])
    decreases ks, 0
  {
    forall i | 0 <= i < |ks| ensures Shape([ks[i]]) && Progress([ks[i]], [calls[i]]) {
      ShapeAt(ks, i);
      ProgressAt(ks, calls, i);
    }
    DisjointKids(ks, j);
    NodesAreAllocated(ks);
    next := GetNextPriorityNode(child, ks[j], calls[j]);
    var calls' := calls[j := calls[j] + 1];
    forall i | 0 <= i < |ks| ensures Shape([ks[i]]) && Progress([ks[i]], [calls'[i]]) {
      if i != j {
        var one, c := [ks[i]], [calls[i]];
        assert Nodes(one) !! Nodes([ks[j]]);
        assert old(Shape(one)) && old(Progress(one, c));
        assert Nodes(one) <= Nodes(ks) by { At(ks, i); }
        assert Shape(one) && Progress(one, c);
      }
    }
    ShapeParts(ks);
    ProgressParts(ks, calls[j := calls[j] + 1]);
  }

  /** simplePrioritizer: reset, then one call per data node below the root. */
  method SimplePrioritizer(root: TreeNode, ghost t: Tree) returns (prioritizedVector: seq<TreeNode?>)
    requires root == t.node && Apart([t]) && Shape([t])
    modifies Nodes([t])
    ensures Shape([t]) && Answers(prioritizedVector) == Simple(t)
  {
    ResetNodeStatus(root, t);
    var numOfLeafNodes := root.treeSize;
    ShapeOne(t);
    ProgressOne(t, 0);
    prioritizedVector := [];
    while root.revisionCount < numOfLeafNodes
      invariant Shape([t]) && Progress([t], [|prioritizedVector|]) && root.revisionCount == |prioritizedVector|
      invariant |prioritizedVector| <= numOfLeafNodes && Answers(prioritizedVector) == Listing(t, |prioritizedVector|)
      decreases numOfLeafNodes - |prioritizedVector|
    {
      var next := GetNextPriorityNode(root, t, |prioritizedVector|);
      prioritizedVector := prioritizedVector + [next];
      ProgressOne(t, |prioritizedVector|);
      ListingNext(t, |prioritizedVector| - 1);
    }
  }

  lemma ListingNext(t: Tree, n: nat)
    ensures Listing(t, n + 1) == Listing(t, n) + [Nth(t, n)]
  {}

  function Answers(l: seq<TreeNode?>): (r: seq<Option<TreeNode>>)
    ensures |r| == |l|
  {
    seq(|l|, k requires 0 <= k < |l| => Answer(l[k]))
  }

  /** mergeSort: the lists of the children, merged. */
  method MergeSort(node: TreeNode, ghost t: Tree) returns (mergeList: seq<TreeNode>)
    requires node == t.node && Shape([t])
    ensures mergeList == Order(t)
    decreases t, 0
  {
    ShapeOne(t);
    if node.children == [] {
      return [node];
    }
    var subTreeMergeList := MergeSortEach(node.children, t.kids);
    mergeList := Merge(subTreeMergeList);
  }

  method MergeSortEach(children: seq<TreeNode>, ghost ks: seq<Tree>) returns (lists: seq<seq<TreeNode>>)
    requires children == Roots(ks) && Shape(ks)
    ensures lists == Orders(ks)
    decreases ks, 1
  {
    hide Orders;
    lists := [];
    NodesAreAllocated(ks);
    for i := 0 to |children|
      invariant Shape(ks) && |lists| == i && forall j :: 0 <= j < i ==> lists[j] == Orders(ks)[j]
    {
      ShapeAt(ks, i);
      var list := MergeSort(children[i], ks[i]);
      lists := lists + [list];
    }
  }

  /** What pops have left of the lists when round r has reached list p. */
  ghost predicate Popped<T>(lists: seq<seq<T>>, now: seq<seq<T>>, r: nat, p: nat) {
    |now| == |lists| && forall j :: 0 <= j < |lists| ==> now[j] == Drop(lists[j], if j < p then r + 1 else r)
  }

  /** merge: rounds of one element from each list that is not empty, until all are. */
  method Merge<T>(lists: seq<seq<T>>) returns (mergeList: seq<T>)
    requires lists != []
    ensures mergeList == Merged(lists)
  {
    var subTreeMergeList := lists;
    var isListAllEmpty := false;
    mergeList := [];
    ghost var r: nat := 0;
    while !isListAllEmpty
      invariant Popped(lists, subTreeMergeList, r, 0)
      invariant mergeList + Rest(lists, r, 0) == Merged(lists)
      invariant if isListAllEmpty then r >= Longest(lists) else r <= Longest(lists)
      decreases if isListAllEmpty then 0 else Longest(lists) + 1 - r
    {
      isListAllEmpty := AreAllEmpty(subTreeMergeList, lists, r);
      mergeList, subTreeMergeList := MergeRound(lists, subTreeMergeList, mergeList, r);
      r := r + 1;
    }
    NothingLate(lists, r, 0);
  }

  method AreAllEmpty<T>(now: seq<seq<T>>, ghost lists: seq<seq<T>>, ghost r: nat) returns (isListAllEmpty: bool)
    requires now != [] && Popped(lists, now, r, 0)
    ensures isListAllEmpty <==> r >= Longest(lists)
  {
    EmptyIsLate(lists, now, r);
    isListAllEmpty := false;
    for i := 0 to |now|
      invariant isListAllEmpty <==> i > 0
      invariant forall j :: 0 <= j < i ==> now[j] == []
    {
      if now[i] != [] {
        isListAllEmpty := false;
        break;
      }
      isListAllEmpty := true;
    }
  }

  method MergeRound<T>(ghost lists: seq<seq<T>>, lists0: seq<seq<T>>, mergeList0: seq<T>, ghost r: nat)
    returns (mergeList: seq<T>, subTreeMergeList: seq<seq<T>>)
    requires Popped(lists, lists0, r, 0)
    ensures Popped(lists, subTreeMergeList, r + 1, 0)
    ensures mergeList + Rest(lists, r + 1, 0) == mergeList0 + Rest(lists, r, 0)
  {
    mergeList, subTreeMergeList := mergeList0, lists0;
    for i := 0 to |subTreeMergeList|
      invariant Popped(lists, subTreeMergeList, r, i)
      invariant mergeList + Rest(lists, r, i) == mergeList0 + Rest(lists, r, 0)
    {
      if subTreeMergeList[i] != [] {
        mergeList := mergeList + [subTreeMergeList[i][0]];
        subTreeMergeList := subTreeMergeList[i := subTreeMergeList[i][1..]];
      }
    }
    RoundEnds(lists, r);
  }

  lemma EmptyIsLate<T>(lists: seq<seq<T>>, now: seq<seq<T>>, r: nat)
    requires Popped(lists, now, r, 0)
    ensures (forall j :: 0 <= j < |now| ==> now[j] == []) <==> r >= Longest(lists)
  {
    LongestIsReached(lists);
    assert forall j :: 0 <= j < |lists| ==> (now[j] == [] <==> r >= |lists[j]|) && lists[j] in lists;
  }

  lemma {:induction false} LongestIsReached<T>(lists: seq<seq<T>>)
    ensures lists == [] || exists l :: l in lists && |l| == Longest(lists)
  {
    if lists != [] {
      LongestIsReached(lists[1..]);
      assert lists[0] in lists && forall l :: l in lists[1..] ==> l in lists;
    }
  }

  lemma {:induction false} NothingLate<T>(lists: seq<seq<T>>, r: nat, p: nat)
    requires r >= Longest(lists) && p <= |lists|
    ensures Rest(lists, r, p) == []
    decreases |lists| - p
  {
    if p < |lists| {
      assert lists[p] in lists;
      NothingLate(lists, r, p + 1);
    }
  }

  lemma RoundEnds<T>(lists: seq<seq<T>>, r: nat)
    ensures Rest(lists, r, |lists|) == Rest(lists, r + 1, 0)
  {
    if r + 1 >= Longest(lists) { NothingLate(lists, r + 1, 0); }
  }

  class Prioritizer {
    var listVersion: nat

    constructor ()
      ensures listVersion == 0
    {
      listVersion := 0;
    }

    /** prioritize: the list of the chosen kind; any other kind lists the root and its children. */
    method Prioritize(kind: int, root: TreeNode, ghost t: Tree) returns (prioritizedVector: seq<TreeNode?>)
      requires root == t.node && Apart([t]) && Shape([t])
      modifies this, Nodes([t])
      ensures listVersion == old(listVersion) + 1 && Shape([t])
      ensures kind == INFOMAX_SIMPLE_PRIORITY ==> Answers(prioritizedVector) == Simple(t)
      ensures kind == INFOMAX_MERGE_PRIORITY ==> prioritizedVector == Order(t)
      ensures kind != INFOMAX_SIMPLE_PRIORITY && kind != INFOMAX_MERGE_PRIORITY ==>
        prioritizedVector == [root] + Roots(t.kids)
    {
      NodesAreAllocated([t]);
      listVersion := listVersion + 1;
      ShapeOne(t);
      if kind == INFOMAX_SIMPLE_PRIORITY {
        prioritizedVector := SimplePrioritizer(root, t);
      } else if kind == INFOMAX_MERGE_PRIORITY {
        prioritizedVector := MergeSort(root, t);
      } else {
        prioritizedVector := [root] + root.children;
      }
    }
  }
}
