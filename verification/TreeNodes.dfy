/** The nodes of the InfoMax tree. */
module TreeNodes {
  import opened Names

  const INFOMAX_SIMPLE_PRIORITY := 1
  const INFOMAX_MERGE_PRIORITY := 2

  /** The nodes of one tree, by name. */
  type Paths = map<Name, TreeNode>

  function Up(n: Name): Name
    requires n != []
  {
    n[..|n| - 1]
  }

  lemma PrefixUp(m: Name, n: Name)
    requires n != []
    ensures m <= n <==> m == n || m <= Up(n)
  {}

  /** Names lead to nodes, and parents are one component up. */
  ghost predicate Rooted(nodes: Paths)
    reads nodes.Values
  {
    && [] in nodes && nodes[[]].parent == null
    && (forall n :: n in nodes ==> nodes[n].name == n)
    && (forall n {:trigger Up(n)} :: n in nodes && n != [] ==> Up(n) in nodes && nodes[n].parent == nodes[Up(n)])
  }

  class TreeNode {
    const name: Name
    var children: seq<TreeNode>
    var isMarked: bool
    var dataNode: bool
    var parent: TreeNode?
    var revisionCount: nat
    var treeSize: nat            // data nodes strictly below

    constructor (name: Name, parent: TreeNode?)
      ensures this.name == name && this.parent == parent
      ensures children == [] && !isMarked && !dataNode && revisionCount == 0 && treeSize == 0
    {
      this.name, this.parent := name, parent;
      children, isMarked, dataNode, revisionCount, treeSize := [], false, false, 0, 0;
    }

    /** Sizes never shrink; growth is passed on to every ancestor. */
    method SetTreeSize(treeSize: nat, ghost nodes: Paths) returns (done: bool)
      requires Rooted(nodes) && name in nodes && nodes[name] == this
      modifies nodes.Values`treeSize
      ensures done == (treeSize >= old(this.treeSize))
      ensures forall n :: n in nodes ==>
        nodes[n].treeSize == old(nodes[n].treeSize) + if done && n <= name then treeSize - old(this.treeSize) else 0
      decreases |name|
    {
      if treeSize < this.treeSize {
        return false;
      }
      var difference := treeSize - this.treeSize;
      this.treeSize := treeSize;
      forall n | n in nodes && name != [] ensures n <= name <==> n == name || n <= Up(name) { PrefixUp(n, name); }
      if parent != null {
        assert name != [] ==> parent == nodes[Up(name)];
        var _ := parent.SetTreeSize(parent.treeSize + difference, nodes);
      }
      done := true;
    }

    /** Appends a child; one that carries data counts in every size above. */
    method AddChild(child: TreeNode?, ghost nodes: Paths) returns (done: bool)
      requires Rooted(nodes) && name in nodes && nodes[name] == this
      modifies this`children, nodes.Values`treeSize
      ensures done == (child != null)
      ensures children == old(children) + if child == null then [] else [child]
      ensures forall n :: n in nodes ==>
        nodes[n].treeSize == old(nodes[n].treeSize) + if child != null && old(child.dataNode) && n <= name then 1 else 0
    {
      if child == null {
        return false;
      }
      children := children + [child];
      if child.dataNode {
        var _ := SetTreeSize(treeSize + 1, nodes);
      }
      done := true;
    }
  }
}
