/**
 * A node of a quasi-species phylogenetic tree (quasispeciestree.tree.QuasiSpeciesNode):
 * the usual BEAST node data (height, label number, metadata string, ID and the
 * parent / left / right links) plus two haplotype annotations, the haplotype
 * that starts on the branch above the node and the haplotype that continues
 * below it (-1 for "none").
 *
 * The node is a linked, mutable object, so it is a class. `Repr` is the ghost
 * footprint of the subtree hanging from the node (the node and all its
 * descendants, not its parent); `Valid()` says the footprint is a proper tree
 * whose children point back to their parent. `Tree()` abstracts the subtree
 * to a value so that copies can be compared with their originals.
 */
module QuasiSpeciesTreeNode {

  /** The value of a subtree: every field a copy carries over, parent links excluded. */
  datatype Shape =
    | Nil
    | Node(height: real, labelNr: int, metaData: string, id: string,
           haploAbove: int, continuingHaplo: int, left: Shape, right: Shape)

  /**
   * What a copy of a subtree looks like: at every level the right child is
   * copied only when a left child exists (a right child without a left one is dropped).
   */
  function Copied(s: Shape): Shape
  {
    match s
    case Nil => Nil
    case Node(h, nr, md, id, above, cont, l, r) =>
      if l.Nil? then Node(h, nr, md, id, above, cont, Nil, Nil)
      else Node(h, nr, md, id, above, cont, Copied(l), Copied(r))
  }

  /** No node of the subtree has a right child without a left one. */
  predicate LeftFirst(s: Shape)
  {
    match s
    case Nil => true
    case Node(_, _, _, _, _, _, l, r) => (l.Nil? ==> r.Nil?) && LeftFirst(l) && LeftFirst(r)
  }

  /** A copy changes the subtree exactly when some node has a lone right child. */
  lemma {:induction false} CopiedIdentityIff(s: Shape)
    ensures Copied(s) == s <==> LeftFirst(s)
  {
    match s
    case Nil =>
    case Node(h, nr, md, id, above, cont, l, r) =>
      CopiedIdentityIff(l);
      CopiedIdentityIff(r);
      if l.Nil? {
        assert Copied(s) == s <==> r.Nil?;
      }
  }

  /** Every copy is left-first, so copying a copy changes nothing more. */
  lemma {:induction false} CopiedIsLeftFirst(s: Shape)
    ensures LeftFirst(Copied(s))
    ensures Copied(Copied(s)) == Copied(s)
  {
    match s
    case Nil =>
    case Node(h, nr, md, id, above, cont, l, r) =>
      if !l.Nil? {
        CopiedIsLeftFirst(l);
        CopiedIsLeftFirst(r);
        CopiedIdentityIff(l);
      }
      CopiedIdentityIff(Copied(s));
  }

  /*
   * assignFrom rebuilds a tree in a pool of existing node objects: the node for
   * a source node with label number k is nodes[k]. The functions below follow
   * the recursion of assignFrom over the source subtree; like it, they visit a
   * right child only when a left child exists.
   */

  /** Every label number assignFrom looks up in `nodes` is an index of it. */
  ghost predicate LabelsIn(nodes: array<QuasiSpeciesNode>, node: QuasiSpeciesNode)
    requires node.Valid()
    reads node.Repr
    decreases node.Repr
  {
    node.left != null ==>
      0 <= node.left.labelNr < nodes.Length && LabelsIn(nodes, node.left) &&
      (node.right != null ==> 0 <= node.right.labelNr < nodes.Length && LabelsIn(nodes, node.right))
  }

  /** The pool nodes that assignFrom links below the node built from `node`. */
  ghost function Targets(nodes: array<QuasiSpeciesNode>, node: QuasiSpeciesNode): set<QuasiSpeciesNode>
    requires node.Valid() && LabelsIn(nodes, node)
    reads nodes, node.Repr
    decreases node.Repr
  {
    if node.left == null then {}
    else
      {nodes[node.left.labelNr]} + Targets(nodes, node.left) +
      (if node.right != null then {nodes[node.right.labelNr]} + Targets(nodes, node.right) else {})
  }

  /** Different source nodes are rebuilt in different pool nodes. */
  ghost predicate DistinctTargets(nodes: array<QuasiSpeciesNode>, node: QuasiSpeciesNode)
    requires node.Valid() && LabelsIn(nodes, node)
    reads nodes, node.Repr
    decreases node.Repr
  {
    node.left != null ==>
      nodes[node.left.labelNr] !in Targets(nodes, node.left) && DistinctTargets(nodes, node.left) &&
      (node.right != null ==>
         nodes[node.right.labelNr] !in Targets(nodes, node.right) && DistinctTargets(nodes, node.right) &&
         ({nodes[node.left.labelNr]} + Targets(nodes, node.left)) !!
         ({nodes[node.right.labelNr]} + Targets(nodes, node.right)))
  }

  /**
   * What assignFrom needs of its arguments when it is asked to rebuild `node`
   * in `target`: the source is a tree, its label numbers index the pool, each
   * source node has its own pool node, and the source tree and the nodes being
   * overwritten do not overlap.
   */
  ghost predicate Assignable(nodes: array<QuasiSpeciesNode>, node: QuasiSpeciesNode, target: QuasiSpeciesNode)
    reads nodes, node, node.Repr
  {
    node.Valid() && LabelsIn(nodes, node) && DistinctTargets(nodes, node) &&
    target !in node.Repr && target !in Targets(nodes, node) && Targets(nodes, node) !! node.Repr
  }

  /** The children of an assignable source node are assignable to their own pool nodes. */
  lemma ChildrenAssignable(nodes: array<QuasiSpeciesNode>, node: QuasiSpeciesNode, target: QuasiSpeciesNode)
    requires Assignable(nodes, node, target) && node.left != null
    ensures Assignable(nodes, node.left, nodes[node.left.labelNr])
    ensures nodes[node.left.labelNr] != target
    ensures node.right != null ==>
              Assignable(nodes, node.right, nodes[node.right.labelNr]) && nodes[node.right.labelNr] != target &&
              ({nodes[node.left.labelNr]} + Targets(nodes, node.left)) !!
              ({nodes[node.right.labelNr]} + Targets(nodes, node.right))
  {
  }

  class QuasiSpeciesNode {
    var height: real
    var labelNr: int
    var metaDataString: string
    var id: string
    var haploAboveName: int
    var continuingHaploName: int
    var parent: QuasiSpeciesNode?
    var left: QuasiSpeciesNode?
    var right: QuasiSpeciesNode?
    ghost var Repr: set<QuasiSpeciesNode>

    /**
     * The subtree is a tree: each child's footprint lies inside this one, the two
     * children's footprints are disjoint, and each child's parent link is this node.
     */
    ghost predicate Valid()
      reads this, Repr
      decreases Repr
    {
      this in Repr &&
      (left != null ==>
         left in Repr && left.Repr <= Repr && this !in left.Repr &&
         left.Valid() && left.parent == this) &&
      (right != null ==>
         right in Repr && right.Repr <= Repr && this !in right.Repr &&
         right.Valid() && right.parent == this) &&
      (left != null && right != null ==> left.Repr !! right.Repr)
    }

    /** The value of the subtree hanging from this node. */
    ghost function Tree(): Shape
      requires Valid()
      reads this, Repr
      decreases Repr
    {
      Node(height, labelNr, metaDataString, id, haploAboveName, continuingHaploName,
           if left != null then left.Tree() else Nil,
           if right != null then right.Tree() else Nil)
    }

    /**
     * A childless node holding the given data and parent link (the source
     * creates an empty node and then assigns these fields one by one).
     */
    constructor (height: real, labelNr: int, metaDataString: string, id: string,
                 haploAboveName: int, continuingHaploName: int, parent: QuasiSpeciesNode?)
      ensures Valid() && Repr == {this}
      ensures this.parent == parent && left == null && right == null
      ensures Tree() == Node(height, labelNr, metaDataString, id, haploAboveName, continuingHaploName, Nil, Nil)
    {
      this.height := height;
      this.labelNr := labelNr;
      this.metaDataString := metaDataString;
      this.id := id;
      this.haploAboveName := haploAboveName;
      this.continuingHaploName := continuingHaploName;
      this.parent := parent;
      left := null;
      right := null;
      Repr := {this};
    }

    function GetHaploAboveName(): int
      reads this
    {
      haploAboveName
    }

    function GetContinuingHaploName(): int
      reads this
    {
      continuingHaploName
    }

    /** The getter then returns the new name; the continuing haplotype is untouched. */
    method SetHaploAboveName(haploName: int)
      modifies this`haploAboveName
      ensures GetHaploAboveName() == haploName
      ensures GetContinuingHaploName() == old(GetContinuingHaploName())
    {
      haploAboveName := haploName;
    }

    /** The getter then returns the new name; the haplotype above is untouched. */
    method SetContinuingHaploName(haploName: int)
      modifies this`continuingHaploName
      ensures GetContinuingHaploName() == haploName
      ensures GetHaploAboveName() == old(GetHaploAboveName())
    {
      continuingHaploName := haploName;
    }

    /**
     * Deep copy: a fresh subtree with the same data at every node, a null parent,
     * and each copied child linked back to its new parent. Nothing that exists
     * already is changed.
     */
    method Copy() returns (r: QuasiSpeciesNode)
      requires Valid()
      ensures fresh(r.Repr) && r.Valid()
      ensures r.parent == null
      ensures r.Tree() == Copied(Tree())
    {
      r := CopyUnder(null);
    }

    /**
     * Shallow copy: a deep copy of the subtree whose root keeps this node's
     * parent link (without becoming one of that parent's children).
     */
    method ShallowCopy() returns (r: QuasiSpeciesNode)
      requires Valid()
      ensures fresh(r.Repr) && r.Valid()
      ensures r.parent == parent
      ensures r.Tree() == Copied(Tree())
    {
      r := CopyUnder(parent);
    }

    /**
     * The copy shared by Copy and ShallowCopy, with the root's parent link given.
     * The left child is deep-copied under the new node, the right child too but
     * only when there is a left child. Each copied child gets its parent link as
     * it is created instead of just after; the final state is the same.
     */
    method CopyUnder(p: QuasiSpeciesNode?) returns (r: QuasiSpeciesNode)
      requires Valid()
      ensures fresh(r.Repr) && r.Valid()
      ensures r.parent == p
      ensures r.Tree() == Copied(Tree())
      decreases Repr, 1
    {
      r := new QuasiSpeciesNode(height, labelNr, metaDataString, id, haploAboveName, continuingHaploName, p);
      var l, rr := CopyChildrenUnder(r);
      if l != null {
        r.SetChildren(l, rr);
      }
    }

    /** The children's copies, each already pointing to the new parent `r`. */
    method CopyChildrenUnder(r: QuasiSpeciesNode) returns (l: QuasiSpeciesNode?, rr: QuasiSpeciesNode?)
      requires Valid() && r !in Repr
      ensures (l != null <==> left != null) && (rr != null <==> left != null && right != null)
      ensures l != null ==> fresh(l.Repr) && l.Valid() && l.parent == r && l.Tree() == Copied(left.Tree())
      ensures rr != null ==> fresh(rr.Repr) && rr.Valid() && rr.parent == r && rr.Tree() == Copied(right.Tree())
      ensures l != null && rr != null ==> l.Repr !! rr.Repr
      decreases Repr, 0
    {
      l, rr := null, null;
      if left != null {
        l := left.CopyUnder(r);
        if right != null {
          rr := right.CopyUnder(r);
        }
      }
    }

    /**
     * Rebuilds the subtree of `node` (from another tree) in this node and the
     * pool `nodes`: the data fields are taken over, the parent link is cleared,
     * and each child becomes the pool node with the source child's label number,
     * rebuilt the same way and linked back to this node.
     */
    method AssignFrom(nodes: array<QuasiSpeciesNode>, node: QuasiSpeciesNode)
      requires Assignable(nodes, node, this)
      modifies {this} + Targets(nodes, node)
      ensures height == node.height && labelNr == node.labelNr && metaDataString == node.metaDataString
      ensures id == node.id && haploAboveName == node.haploAboveName && continuingHaploName == node.continuingHaploName
      ensures parent == null
      ensures node.left != null ==> left == nodes[node.left.labelNr] && left.parent == this
      ensures node.left != null && node.right != null ==> right == nodes[node.right.labelNr] && right.parent == this
      ensures node.left == null ==> left == old(left) && right == old(right)
      ensures node.left != null && node.right == null ==> right == old(right)
    {
      AssignFromUnder(nodes, node, null);
    }

    /**
     * assignFrom with the parent link of the rebuilt root given (null for the
     * root itself). This node takes over the data of `node`; its children become
     * the pool nodes of node's children, rebuilt in turn and linked back to it.
     * A child link that nothing replaces is left as it was: the node rebuilt
     * from a leaf keeps its old children, the one rebuilt from a node with only
     * a left child keeps its old right child. The children are rebuilt before
     * this node's own fields are written; the rebuilding neither reads nor
     * writes this node, so the final state is the same.
     */
    method AssignFromUnder(nodes: array<QuasiSpeciesNode>, node: QuasiSpeciesNode, p: QuasiSpeciesNode?)
      requires Assignable(nodes, node, this)
      modifies {this} + Targets(nodes, node)
      ensures height == node.height && labelNr == node.labelNr && metaDataString == node.metaDataString
      ensures id == node.id && haploAboveName == node.haploAboveName && continuingHaploName == node.continuingHaploName
      ensures parent == p
      ensures node.left != null ==> left == nodes[node.left.labelNr] && left.parent == this
      ensures node.left != null && node.right != null ==> right == nodes[node.right.labelNr] && right.parent == this
      ensures node.left == null ==> left == old(left) && right == old(right)
      ensures node.left != null && node.right == null ==> right == old(right)
      decreases node.Repr
    {
      var l, rr := left, right;
      if node.left != null {
        ChildrenAssignable(nodes, node, this);
        l := nodes[node.left.labelNr];
        l.AssignFromUnder(nodes, node.left, this);
        if node.right != null {
          rr := nodes[node.right.labelNr];
          rr.AssignFromUnder(nodes, node.right, this);
        }
      }
      SetFrom(node, p, l, rr);
    }

    /** Takes over the data of `node` and the given parent and child links. */
    method SetFrom(node: QuasiSpeciesNode, p: QuasiSpeciesNode?, l: QuasiSpeciesNode?, rr: QuasiSpeciesNode?)
      modifies this
      ensures height == node.height && labelNr == node.labelNr && metaDataString == node.metaDataString
      ensures id == node.id && haploAboveName == node.haploAboveName && continuingHaploName == node.continuingHaploName
      ensures parent == p && left == l && right == rr && Repr == old(Repr)
    {
      height := node.height;
      labelNr := node.labelNr;
      metaDataString := node.metaDataString;
      parent := p;
      id := node.id;
      haploAboveName := node.haploAboveName;
      continuingHaploName := node.continuingHaploName;
      left := l;
      right := rr;
    }

    /**
     * Hangs `l` (and `rr`, when there is one) below this childless node; both
     * already point back to it. The subtree's value is then this node's data
     * over the two children's values.
     */
    method SetChildren(l: QuasiSpeciesNode, rr: QuasiSpeciesNode?)
      requires Valid() && left == null && right == null
      requires l.Valid() && this !in l.Repr && l.parent == this
      requires rr != null ==> rr.Valid() && this !in rr.Repr && rr.parent == this && l.Repr !! rr.Repr
      modifies this`left, this`right, this`Repr
      ensures Valid() && Repr == {this} + l.Repr + (if rr != null then rr.Repr else {})
      ensures left == l && right == rr
      ensures Tree() == Node(height, labelNr, metaDataString, id, haploAboveName, continuingHaploName,
                             old(l.Tree()), if rr != null then old(rr.Tree()) else Nil)
    {
      left := l;
      right := rr;
      Repr := {this} + l.Repr + (if rr != null then rr.Repr else {});
    }
  }
}
