/**
 * The "easy" Wilson-Balding move of the quasi-species tree
 * (quasispeciestree.operators.QuasiSpeciesWilsonBaldingEasy): a subtree is cut
 * from its parent branch and re-attached on another branch, but only where no
 * haplotype is interrupted.
 *
 * The tree is seen through its node array: node i has a parent, a left and a
 * right child (-1 for none), a height, and the two haplotype annotations of
 * QuasiSpeciesNode. The node draws (Randomizer.nextInt) and the uniform draw
 * (Randomizer.nextDouble) are parameters, as is the natural logarithm `ln`.
 * The tree surgery and the haplotype rescaling happen in the operator's base
 * class, which is not part of this model: the rescaling's log contribution is
 * the parameter `haploScale`, a function of the new attachment time.
 */
module WilsonBalding {
  import opened Numeric
  import opened Outcomes

  datatype TreeView = TreeView(parent: seq<int>, left: seq<int>, right: seq<int>, height: seq<real>,
                               haploAbove: seq<int>, continuingHaplo: seq<int>)
  {
    function Size(): nat { |parent| }
  }

  /** Every array of the view has one entry per node. */
  ghost predicate Lengths(t: TreeView)
  {
    var n := t.Size();
    |t.left| == n && |t.right| == n && |t.height| == n && |t.haploAbove| == n && |t.continuingHaplo| == n
  }

  /**
   * The links of node i: each is a node or -1; the node has two distinct
   * children or none, its children point back to it, and its parent has it as
   * a child.
   */
  ghost predicate LinksAt(t: TreeView, i: int)
    requires Lengths(t) && 0 <= i < t.Size()
  {
    var n := t.Size();
    -1 <= t.parent[i] < n && -1 <= t.left[i] < n && -1 <= t.right[i] < n &&
    (t.left[i] == -1 <==> t.right[i] == -1) &&
    (t.left[i] != -1 ==> t.left[i] != t.right[i] && t.parent[t.left[i]] == i && t.parent[t.right[i]] == i) &&
    (t.parent[i] != -1 ==> t.left[t.parent[i]] == i || t.right[t.parent[i]] == i)
  }

  /** A binary tree over the nodes 0 .. Size()-1 (acyclicity is Ranked). */
  ghost predicate WellFormed(t: TreeView)
  {
    Lengths(t) && forall i :: 0 <= i < t.Size() ==> LinksAt(t, i)
  }

  /** Node i is ranked strictly below its parent. */
  ghost predicate RankedAt(t: TreeView, rank: seq<nat>, i: int)
    requires WellFormed(t) && |rank| == t.Size() && 0 <= i < t.Size()
  {
    assert LinksAt(t, i);
    rank[i] < t.Size() && (t.parent[i] != -1 ==> rank[i] < rank[t.parent[i]])
  }

  /**
   * `rank` (below the node count) strictly increases from child to parent, so
   * no node is its own ancestor.
   */
  ghost predicate Ranked(t: TreeView, rank: seq<nat>)
    requires WellFormed(t)
  {
    |rank| == t.Size() && forall i :: 0 <= i < t.Size() ==> RankedAt(t, rank, i)
  }

  /** Node i is not above its parent. */
  ghost predicate HeightOrderedAt(t: TreeView, i: int)
    requires WellFormed(t) && 0 <= i < t.Size()
  {
    assert LinksAt(t, i);
    t.parent[i] != -1 ==> t.height[i] <= t.height[t.parent[i]]
  }

  /** A node is never below its children: heights of a time tree. */
  ghost predicate HeightsOrdered(t: TreeView)
    requires WellFormed(t)
  {
    forall i :: 0 <= i < t.Size() ==> HeightOrderedAt(t, i)
  }

  predicate IsRoot(t: TreeView, i: int)
    requires 0 <= i < t.Size()
  {
    t.parent[i] == -1
  }

  predicate IsLeaf(t: TreeView, i: int)
    requires 0 <= i < |t.left|
  {
    t.left[i] == -1
  }

  /** The child of `p` that is not `c` (getOtherChild). */
  function OtherChild(t: TreeView, p: int, c: int): int
    requires 0 <= p < |t.left| && |t.right| == |t.left|
  {
    if t.left[p] == c then t.right[p] else t.left[p]
  }

  /**
   * invalidSrcNode: the root cannot move; a child of the root cannot move when
   * its sister is a leaf or is not strictly above it.
   */
  predicate InvalidSrcNode(t: TreeView, src: int)
    requires WellFormed(t) && 0 <= src < t.Size()
  {
    assert LinksAt(t, src);
    IsRoot(t, src) ||
    (var p := t.parent[src];
     IsRoot(t, p) &&
     (assert LinksAt(t, p);
      var sister := OtherChild(t, p, src);
      IsLeaf(t, sister) || t.height[src] >= t.height[sister]))
  }

  /** A source the move may take: valid, and not interrupting a haplotype. */
  predicate AcceptableSource(t: TreeView, src: int)
    requires WellFormed(t) && 0 <= src < t.Size()
  {
    !InvalidSrcNode(t, src) && t.continuingHaplo[src] == t.haploAbove[src]
  }

  /**
   * invalidDestNode: not the source, not its parent, not a sibling of the
   * source, and not a branch whose top is at or below the source.
   */
  predicate InvalidDestNode(t: TreeView, src: int, dest: int)
    requires WellFormed(t) && 0 <= src < t.Size() && 0 <= dest < t.Size()
  {
    assert LinksAt(t, dest);
    dest == src || dest == t.parent[src] || t.parent[dest] == t.parent[src] ||
    (t.parent[dest] != -1 && t.height[t.parent[dest]] <= t.height[src])
  }

  /** The root of a well-formed tree, found by climbing from node i. */
  function RootAbove(t: TreeView, rank: seq<nat>, i: int): (r: int)
    requires WellFormed(t) && Ranked(t, rank) && 0 <= i < t.Size()
    ensures 0 <= r < t.Size() && IsRoot(t, r)
    decreases t.Size() - rank[i]
  {
    assert LinksAt(t, i) && RankedAt(t, rank, i);
    if t.parent[i] == -1 then i
    else
      assert RankedAt(t, rank, t.parent[i]);
      RootAbove(t, rank, t.parent[i])
  }

  /**
   * The reason for the sister test in invalidSrcNode: every valid source has
   * at least one valid destination, so the destination loop can end. Below a
   * non-root parent the root itself qualifies; below the root, a child of the
   * (internal, strictly higher) sister does.
   */
  lemma ValidSourceHasValidDestination(t: TreeView, rank: seq<nat>, src: int)
    requires WellFormed(t) && Ranked(t, rank) && 0 <= src < t.Size()
    requires !InvalidSrcNode(t, src)
    ensures exists dest :: 0 <= dest < t.Size() && !InvalidDestNode(t, src, dest)
  {
    assert LinksAt(t, src);
    var p := t.parent[src];
    assert LinksAt(t, p);
    if IsRoot(t, p) {
      var sister := OtherChild(t, p, src);
      assert LinksAt(t, sister);
      var c := t.left[sister];
      assert LinksAt(t, c);
      assert !InvalidDestNode(t, src, c);
    } else {
      var r := RootAbove(t, rank, p);
      assert LinksAt(t, r);
      assert !InvalidDestNode(t, src, r);
    }
  }

  /** Four distinct node numbers need at least four nodes. */
  lemma FourDistinct(a: int, b: int, c: int, d: int, n: int)
    requires 0 <= a < n && 0 <= b < n && 0 <= c < n && 0 <= d < n
    requires a != b && a != c && a != d && b != c && b != d && c != d
    ensures n >= 4
  {
  }

  /**
   * Why initAndValidate refuses trees with fewer than 3 leaves: a binary tree
   * with at most 3 nodes (a root over two leaves, or less) has no valid source,
   * so the source loop would never end.
   */
  lemma SmallTreeHasNoValidSource(t: TreeView, rank: seq<nat>, src: int)
    requires WellFormed(t) && Ranked(t, rank) && t.Size() <= 3 && 0 <= src < t.Size()
    ensures InvalidSrcNode(t, src)
  {
    if !InvalidSrcNode(t, src) {
      assert LinksAt(t, src) && RankedAt(t, rank, src);
      var p := t.parent[src];
      assert LinksAt(t, p) && RankedAt(t, rank, p);
      var sister := OtherChild(t, p, src);
      assert LinksAt(t, sister);
      if IsRoot(t, p) {
        FourDistinct(src, p, sister, t.left[sister], t.Size());
      } else {
        FourDistinct(src, p, sister, t.parent[p], t.Size());
      }
    }
  }

  /** The tree-size check of initAndValidate. */
  function CheckTreeSize(leafNodeCount: int): (r: Result<()>)
    ensures r.Ok? <==> leafNodeCount >= 3
  {
    if leafNodeCount < 3 then Error("Tree is too small for QuasiSpeciesWilsonBaldingEasy operator.")
    else Ok(())
  }

  /** Position of the first draw that satisfies `ok` (the exit of a do-while draw loop). */
  function FirstWhere(draws: seq<int>, ok: int -> bool): (k: nat)
    requires exists j :: 0 <= j < |draws| && ok(draws[j])
    ensures k < |draws| && ok(draws[k])
    ensures forall j :: 0 <= j < k ==> !ok(draws[j])
  {
    if ok(draws[0]) then 0
    else
      assert exists j :: 0 <= j < |draws[1..]| && ok(draws[1..][j]) by {
        var j :| 0 <= j < |draws| && ok(draws[j]);
        assert j > 0 && draws[1..][j - 1] == draws[j];
      }
      1 + FirstWhere(draws[1..], ok)
  }

  /** The new attachment height: min_newTime + span * u, with u uniform in [0, 1). */
  function NewAttachmentTime(minNewTime: real, span: real, u: real): real
  {
    minNewTime + span * u
  }

  /** A fraction u in [0, 1) of a positive span lands in [min, min + span). */
  lemma NewAttachmentTimeInSpan(minNewTime: real, span: real, u: real)
    requires span > 0.0 && 0.0 <= u < 1.0
    ensures minNewTime <= NewAttachmentTime(minNewTime, span, u) < minNewTime + span
  {
    assert 0.0 <= span * u by { NonNegativeProduct(span, u); }
    assert 0.0 < span * (1.0 - u) by { PositiveProduct(span, 1.0 - u); }
    assert span * u + span * (1.0 - u) == span;
  }

  /** With a non-empty interval, the new time lies in [min, destParentHeight). */
  lemma NewAttachmentTimeInInterval(minNewTime: real, destParentHeight: real, u: real)
    requires minNewTime < destParentHeight && 0.0 <= u < 1.0
    ensures minNewTime <= NewAttachmentTime(minNewTime, destParentHeight - minNewTime, u) < destParentHeight
  {
    NewAttachmentTimeInSpan(minNewTime, destParentHeight - minNewTime, u);
  }

  lemma NonNegativeProduct(a: real, b: real)
    requires a >= 0.0 && b >= 0.0
    ensures a * b >= 0.0
  {
  }

  lemma PositiveProduct(a: real, b: real)
    requires a > 0.0 && b > 0.0
    ensures a * b > 0.0
  {
  }

  function Max(a: real, b: real): real
  {
    if a >= b then a else b
  }

  datatype Outcome =
    /** -infinity returned before any change: the move would change the root. */
    | RootMoveRejected
    /** -infinity returned by the haplotype rescaling at the new time. */
    | HaploScaleRejected(newTime: real)
    /** The move is made; the log Hastings ratio it returns. */
    | Proposed(newTime: real, logHastingsRatio: real)
    /** IllegalStateException: the old or the new attachment range has length zero. */
    | ZeroBranchLength(newTime: real)

  /** The draws of the source loop are node numbers, and one of them is acceptable. */
  ghost predicate SourceDrawsValid(t: TreeView, srcDraws: seq<int>)
    requires WellFormed(t)
  {
    (forall k :: 0 <= k < |srcDraws| ==> 0 <= srcDraws[k] < t.Size()) &&
    exists k :: 0 <= k < |srcDraws| && AcceptableSource(t, srcDraws[k])
  }

  /** The source the do-while loop settles on. */
  function ChosenSource(t: TreeView, srcDraws: seq<int>): (src: int)
    requires WellFormed(t) && SourceDrawsValid(t, srcDraws)
    ensures 0 <= src < t.Size() && AcceptableSource(t, src)
  {
    var ok := (i: int) => 0 <= i < t.Size() && AcceptableSource(t, i);
    srcDraws[FirstWhere(srcDraws, ok)]
  }

  /** The draws of the destination loop are node numbers, and one of them is valid for src. */
  ghost predicate DestDrawsValid(t: TreeView, src: int, destDraws: seq<int>)
    requires WellFormed(t) && 0 <= src < t.Size()
  {
    (forall k :: 0 <= k < |destDraws| ==> 0 <= destDraws[k] < t.Size()) &&
    exists k :: 0 <= k < |destDraws| && !InvalidDestNode(t, src, destDraws[k])
  }

  /**
   * What the proposal returns once source and destination are fixed: the root
   * rejection first, then the new time, the haplotype rescaling, and the
   * topology part of the ratio, log(newRange) - log(oldRange), with a zero
   * range an error.
   */
  function MoveOutcome(t: TreeView, src: int, dest: int, u: real, haploScale: real -> Ext, ln: real -> real): Outcome
    requires WellFormed(t) && 0 <= src < t.Size() && 0 <= dest < t.Size()
    requires !InvalidSrcNode(t, src)
  {
    assert LinksAt(t, src) && LinksAt(t, dest);
    var p := t.parent[src];
    if IsRoot(t, dest) || IsRoot(t, p) then RootMoveRejected
    else
      assert LinksAt(t, p);
      var sister := OtherChild(t, p, src);
      var grandParent := t.parent[p];
      var destParent := t.parent[dest];
      var minNewTime := Max(t.height[dest], t.height[src]);
      var newTime := NewAttachmentTime(minNewTime, t.height[destParent] - minNewTime, u);
      var contribution := if t.continuingHaplo[src] != -1 then haploScale(newTime) else Fin(0.0);
      if contribution.NegInf? then HaploScaleRejected(newTime)
      else
        var newRange := t.height[destParent] - minNewTime;
        var oldRange := t.height[grandParent] - Max(t.height[src], t.height[sister]);
        if newRange == 0.0 || oldRange == 0.0 then ZeroBranchLength(newTime)
        else Proposed(newTime, contribution.v + ln(newRange) - ln(oldRange))
  }

  /** The source loop of proposal(): node draws until one is a valid source that keeps its haplotype. */
  method ChooseSource(t: TreeView, srcDraws: seq<int>) returns (src: int)
    requires WellFormed(t) && SourceDrawsValid(t, srcDraws)
    ensures 0 <= src < t.Size() && AcceptableSource(t, src)
    ensures src == ChosenSource(t, srcDraws)
  {
    var ok := (i: int) => 0 <= i < t.Size() && AcceptableSource(t, i);
    var k := 0;
    src := srcDraws[0];
    while !AcceptableSource(t, src)
      invariant 0 <= k <= FirstWhere(srcDraws, ok) && src == srcDraws[k]
      decreases FirstWhere(srcDraws, ok) - k
    {
      k := k + 1;
      src := srcDraws[k];
    }
  }

  /** The destination loop of proposal(): node draws until one is a valid destination for src. */
  method ChooseDestination(t: TreeView, src: int, destDraws: seq<int>) returns (dest: int)
    requires WellFormed(t) && 0 <= src < t.Size() && DestDrawsValid(t, src, destDraws)
    ensures 0 <= dest < t.Size() && !InvalidDestNode(t, src, dest)
    ensures exists k :: 0 <= k < |destDraws| && destDraws[k] == dest &&
                        forall j :: 0 <= j < k ==> InvalidDestNode(t, src, destDraws[j])
  {
    var ok := (i: int) => 0 <= i < t.Size() && !InvalidDestNode(t, src, i);
    var d := 0;
    dest := destDraws[0];
    while InvalidDestNode(t, src, dest)
      invariant 0 <= d <= FirstWhere(destDraws, ok) && dest == destDraws[d]
      invariant forall j :: 0 <= j < d ==> InvalidDestNode(t, src, destDraws[j])
      decreases FirstWhere(destDraws, ok) - d
    {
      d := d + 1;
      dest := destDraws[d];
    }
  }

  /**
   * proposal(): draw a source and a destination, then reject a root move,
   * place the new attachment point, rescale the haplotype and compute the
   * topology part of the ratio.
   */
  method Proposal(t: TreeView, srcDraws: seq<int>, destDraws: seq<int>, u: real,
                  haploScale: real -> Ext, ln: real -> real)
    returns (src: int, dest: int, outcome: Outcome)
    requires WellFormed(t) && SourceDrawsValid(t, srcDraws)
    requires DestDrawsValid(t, ChosenSource(t, srcDraws), destDraws)
    ensures 0 <= src < t.Size() && AcceptableSource(t, src) && src == ChosenSource(t, srcDraws)
    ensures 0 <= dest < t.Size() && !InvalidDestNode(t, src, dest)
    ensures exists k :: 0 <= k < |destDraws| && destDraws[k] == dest &&
                        forall j :: 0 <= j < k ==> InvalidDestNode(t, src, destDraws[j])
    ensures outcome == MoveOutcome(t, src, dest, u, haploScale, ln)
  {
    src := ChooseSource(t, srcDraws);
    dest := ChooseDestination(t, src, destDraws);
    assert LinksAt(t, src) && LinksAt(t, dest);
    var p := t.parent[src];
    if IsRoot(t, dest) || IsRoot(t, p) {
      return src, dest, RootMoveRejected;
    }
    assert LinksAt(t, p);
    var tSrc := t.height[src];
    var sister := OtherChild(t, p, src);
    var tSister := t.height[sister];
    var destParent := t.parent[dest];
    var tDest := t.height[dest];
    var tGrandParent := t.height[t.parent[p]];
    var minNewTime := Max(tDest, tSrc);
    var tDestParent := t.height[destParent];
    var span := tDestParent - minNewTime;
    var newTime := NewAttachmentTime(minNewTime, span, u);
    var logHastingsRatio := 0.0;
    if t.continuingHaplo[src] != -1 {
      var contribution := haploScale(newTime);
      if contribution.NegInf? {
        return src, dest, HaploScaleRejected(newTime);
      }
      logHastingsRatio := logHastingsRatio + contribution.v;
    }
    logHastingsRatio := logHastingsRatio + ln(tDestParent - Max(tSrc, tDest)) - ln(tGrandParent - Max(tSrc, tSister));
    if tDestParent - Max(tSrc, tDest) == 0.0 || tGrandParent - Max(tSrc, tSister) == 0.0 {
      return src, dest, ZeroBranchLength(newTime);
    }
    outcome := Proposed(newTime, logHastingsRatio);
  }

  /** The parent of node i (-1 at the root). */
  function Parent(t: TreeView, i: int): (p: int)
    requires WellFormed(t) && 0 <= i < t.Size()
    ensures -1 <= p < t.Size()
  {
    assert LinksAt(t, i);
    t.parent[i]
  }

  /** The other child of node i's parent (getOtherChild). */
  function Sister(t: TreeView, i: int): (s: int)
    requires WellFormed(t) && 0 <= i < t.Size() && Parent(t, i) != -1
    ensures 0 <= s < t.Size() && s != i && Parent(t, s) == Parent(t, i)
  {
    assert LinksAt(t, i) && LinksAt(t, t.parent[i]);
    var s := OtherChild(t, t.parent[i], i);
    assert LinksAt(t, s);
    s
  }

  /**
   * In a time tree, a move that is made attaches the subtree at a time in
   * [max(t_dest, t_src), t_destParent).
   */
  lemma ProposedTimeInInterval(t: TreeView, src: int, dest: int, u: real, haploScale: real -> Ext, ln: real -> real)
    requires WellFormed(t) && HeightsOrdered(t) && 0 <= src < t.Size() && 0 <= dest < t.Size()
    requires !InvalidSrcNode(t, src) && !InvalidDestNode(t, src, dest) && 0.0 <= u < 1.0
    requires MoveOutcome(t, src, dest, u, haploScale, ln).Proposed?
    ensures Parent(t, dest) != -1
    ensures Max(t.height[dest], t.height[src]) <= MoveOutcome(t, src, dest, u, haploScale, ln).newTime
    ensures MoveOutcome(t, src, dest, u, haploScale, ln).newTime < t.height[Parent(t, dest)]
  {
    assert LinksAt(t, dest) && HeightOrderedAt(t, dest);
    var minNewTime := Max(t.height[dest], t.height[src]);
    NewAttachmentTimeInInterval(minNewTime, t.height[t.parent[dest]], u);
  }

  /**
   * In a time tree, a move past the root test and the haplotype rescaling ends
   * in the zero-length error exactly when the destination branch has length
   * zero, or the source's parent branch and the higher of its two child
   * branches both do (then the old range is empty).
   */
  lemma ZeroBranchLengthIff(t: TreeView, src: int, dest: int, u: real, haploScale: real -> Ext, ln: real -> real)
    requires WellFormed(t) && HeightsOrdered(t) && 0 <= src < t.Size() && 0 <= dest < t.Size()
    requires !InvalidSrcNode(t, src) && !InvalidDestNode(t, src, dest)
    requires !MoveOutcome(t, src, dest, u, haploScale, ln).RootMoveRejected?
    requires !MoveOutcome(t, src, dest, u, haploScale, ln).HaploScaleRejected?
    ensures Parent(t, dest) != -1 && Parent(t, src) != -1 && Parent(t, Parent(t, src)) != -1
    ensures var p := Parent(t, src);
            var g := Parent(t, p);
            var sister := Sister(t, src);
            MoveOutcome(t, src, dest, u, haploScale, ln).ZeroBranchLength? <==>
              t.height[Parent(t, dest)] == t.height[dest] ||
              (t.height[g] == t.height[p] && t.height[p] == Max(t.height[src], t.height[sister]))
  {
    assert LinksAt(t, src) && LinksAt(t, dest) && HeightOrderedAt(t, src) && HeightOrderedAt(t, dest);
    var p := t.parent[src];
    assert LinksAt(t, p) && HeightOrderedAt(t, p);
    var sister := OtherChild(t, p, src);
    assert LinksAt(t, sister) && HeightOrderedAt(t, sister);
  }
}
