/**
 * The bookkeeping of piqmee.likelihood.QuasiSpeciesTreeLikelihood3 as a class
 * over arrays: the double-buffered per-leaf log-scale vectors and the leafIndex
 * that selects the active one, their accumulation, the integration of the
 * root partials, the per-pattern log-likelihoods and their weighted sum, the
 * rates of no change, the branch-length cache of traverse, store/restore, and
 * the scaling retry of calculateLogP.
 *
 * The likelihood core (the peeling recursion, its partials and scaling
 * factors), the substitution model and the alignment are not modelled: what
 * they hand to these methods arrives as parameters. Each method is proved
 * against the functions of LikelihoodSpecs.
 */
module Likelihood {
  import opened Numeric
  import opened Outcomes
  import opened LikelihoodSpecs

  /** The site model's per-category rates and proportions, its invariant proportion, and the root frequencies. */
  datatype SiteModel = SiteModel(categoryRates: seq<real>, proportions: seq<real>,
                                 proportionInvariant: real, frequencies: seq<real>)

  /** The alignment's pattern weights and, when it is ascertained, its ascertainment correction. */
  datatype Patterns = Patterns(weights: seq<int>, ascertained: bool, correction: seq<Ext> -> real)

  /** What the likelihood core reports after a traversal: the raw root partials and the log scaling factor per pattern. */
  datatype CoreView = CoreView(rawRootPartials: seq<real>, logScale: nat -> real)

  /** The substitution model's eigendecomposition, row-major S-by-S matrices. */
  datatype Eigen = Eigen(evec: seq<real>, eval: seq<real>, ievc: seq<real>)

  /** s[0] + ... + s[m-1], added from the left. */
  function PrefixSum(s: seq<real>, m: nat): real
    requires m <= |s|
  {
    if m == 0 then 0.0 else PrefixSum(s, m - 1) + s[m - 1]
  }

  /** For each w, the sum of the first n entries of row w. */
  function SumsOf(rows: seq<seq<real>>, n: nat): (r: seq<real>)
    requires forall w :: 0 <= w < |rows| ==> n <= |rows[w]|
    ensures |r| == |rows| && forall w :: 0 <= w < |rows| ==> r[w] == PrefixSum(rows[w], n)
  {
    seq(|rows|, w requires 0 <= w < |rows| => PrefixSum(rows[w], n))
  }

  /** The leaf selectors after every leaf numbered in R has switched to its other buffer. */
  function Flipped(sel: seq<int>, R: set<nat>): (r: seq<int>)
    ensures |r| == |sel|
    ensures forall j :: 0 <= j < |sel| ==> r[j] == if j in R then 1 - sel[j] else sel[j]
  {
    seq(|sel|, j requires 0 <= j < |sel| => if j in R then 1 - sel[j] else sel[j])
  }

  class QuasiSpeciesTreeLikelihood {
    const lay: Layout
    const nodeCount: nat
    const leafNodeCount: nat

    /** m_branchLengths and storedBranchLengths: one slot per node, then one per haplotype. */
    var branchLengths: array<real>
    var storedBranchLengths: array<real>
    /** The leaf scales summed over the leaves, index c*P + p. */
    var accumulatedLogLeafScaleFactors: array<real>
    var storedAccumulatedLogLeafScaleFactors: array<real>
    /** The rate of no change per state. */
    var rates: array<real>
    var storedRates: array<real>
    /** Which of the two scale buffers of each leaf is active (0 or 1). */
    var leafIndex: array<int>
    var storedLeafIndex: array<int>
    /** leafLogScaleFactors[b, n, c*P + p]: buffer b of leaf n. */
    const leafLogScaleFactors: array3<real>
    /** Scratch vector of a leaf update, index c*S + j. */
    const logProbabilities: array<real>
    /** m_fRootPartials, index k*S + i. */
    const rootPartials: array<real>
    const patternLogLikelihoods: array<Ext>
    /** states[n][p]: the state of leaf n at pattern p, fixed once the alignment is read. */
    const states: seq<seq<int>>

    var hasDirt: Dirt
    var fScale: real
    var nScale: int
    var logP: Ext
    var constantPattern: Option<seq<nat>>
    var proportionInvariant: real

    ghost function Footprint(): set<object>
      reads this`branchLengths, this`storedBranchLengths, this`accumulatedLogLeafScaleFactors,
            this`storedAccumulatedLogLeafScaleFactors, this`rates, this`storedRates, this`leafIndex, this`storedLeafIndex
    {
      {branchLengths, storedBranchLengths, accumulatedLogLeafScaleFactors, storedAccumulatedLogLeafScaleFactors,
       rates, storedRates, leafIndex, storedLeafIndex, leafLogScaleFactors, logProbabilities, rootPartials,
       patternLogLikelihoods}
    }

    /** Entries 0 or 1 only. */
    ghost predicate Flags(a: array<int>)
      reads a
    {
      forall j :: 0 <= j < a.Length ==> a[j] == 0 || a[j] == 1
    }

    /** The eight real buffers are pairwise different arrays. */
    ghost predicate SeparateBuffers()
      reads this`branchLengths, this`storedBranchLengths, this`accumulatedLogLeafScaleFactors,
            this`storedAccumulatedLogLeafScaleFactors, this`rates, this`storedRates, this`leafIndex, this`storedLeafIndex
    {
      var bl, sbl, acc, sacc := branchLengths, storedBranchLengths, accumulatedLogLeafScaleFactors, storedAccumulatedLogLeafScaleFactors;
      bl != sbl && bl != acc && bl != sacc && bl != rates && bl != storedRates && bl != logProbabilities && bl != rootPartials &&
      sbl != acc && sbl != sacc && sbl != rates && sbl != storedRates && sbl != logProbabilities && sbl != rootPartials &&
      acc != sacc && acc != rates && acc != storedRates && acc != logProbabilities && acc != rootPartials &&
      sacc != rates && sacc != storedRates && sacc != logProbabilities && sacc != rootPartials &&
      rates != storedRates && rates != logProbabilities && rates != rootPartials &&
      storedRates != logProbabilities && storedRates != rootPartials &&
      logProbabilities != rootPartials &&
      leafIndex != storedLeafIndex
    }

    /** Two scale buffers of length C*P per leaf, and a 0/1 selector per leaf. */
    ghost predicate ScaleBuffersReady()
      reads this`leafIndex, leafIndex
    {
      leafIndex.Length == leafNodeCount && Flags(leafIndex) &&
      leafLogScaleFactors.Length0 == 2 && leafLogScaleFactors.Length1 == leafNodeCount &&
      leafLogScaleFactors.Length2 == lay.ScaleLength()
    }

    /** The buffer sizes of initAndValidate and initCore, on a binary tree with at least two leaves. */
    ghost predicate Valid()
      reads this`branchLengths, this`storedBranchLengths, this`accumulatedLogLeafScaleFactors,
            this`storedAccumulatedLogLeafScaleFactors, this`rates, this`storedRates, this`leafIndex, this`storedLeafIndex, Footprint()
    {
      SeparateBuffers() &&
      leafNodeCount == nodeCount / 2 + 1 && 2 <= leafNodeCount && 1 <= lay.categories &&
      branchLengths.Length == nodeCount + leafNodeCount && storedBranchLengths.Length == nodeCount + leafNodeCount &&
      accumulatedLogLeafScaleFactors.Length == lay.ScaleLength() &&
      storedAccumulatedLogLeafScaleFactors.Length == lay.ScaleLength() &&
      rates.Length == lay.states && storedRates.Length == lay.states &&
      storedLeafIndex.Length == leafNodeCount &&
      ScaleBuffersReady() && Flags(storedLeafIndex) &&
      logProbabilities.Length == lay.states * lay.categories &&
      rootPartials.Length == lay.Block() &&
      patternLogLikelihoods.Length == lay.patterns &&
      |states| == leafNodeCount &&
      (forall n :: 0 <= n < leafNodeCount ==> |states[n]| == lay.patterns) &&
      (forall n, p :: 0 <= n < leafNodeCount && 0 <= p < lay.patterns ==> 0 <= states[n][p] < lay.states)
    }

    // -------------------------------------------------------------------
    // calcConstantPatternIndices
    // -------------------------------------------------------------------

    /**
     * calcConstantPatternIndices: the per-state filter over each pattern's
     * state sets is switched off in the source, so every state of every
     * pattern is invariant and the list is 0, 1, ..., patterns*stateCount - 1.
     */
    method CalcConstantPatternIndices(patterns: nat, stateCount: nat)
      modifies this`constantPattern
      ensures constantPattern.Some? && |constantPattern.value| == patterns * stateCount
      ensures forall j :: 0 <= j < |constantPattern.value| ==> constantPattern.value[j] == j
    {
      var found: seq<nat> := [];
      var i := 0;
      while i < patterns
        invariant 0 <= i <= patterns
        invariant |found| == i * stateCount
        invariant forall j :: 0 <= j < |found| ==> found[j] == j
      {
        var isInvariant := new bool[stateCount](_ => true);
        var k := 0;
        while k < stateCount
          invariant 0 <= k <= stateCount
          invariant |found| == i * stateCount + k
          invariant forall j :: 0 <= j < |found| ==> found[j] == j
          invariant forall m :: 0 <= m < stateCount ==> isInvariant[m]
        {
          if isInvariant[k] {
            found := found + [i * stateCount + k];
          }
          k := k + 1;
        }
        assert (i + 1) * stateCount == i * stateCount + stateCount;
        i := i + 1;
      }
      constantPattern := Some(found);
    }

    // -------------------------------------------------------------------
    // getNoChangeRates
    // -------------------------------------------------------------------

    /** The first loop of getNoChangeRates: tmpevectimesevals[i*S + j] = evec[i*S + j] * eval[j]. */
    method EvecTimesEval(eigen: Eigen, s: nat) returns (tmp: array<real>)
      requires |eigen.evec| == s * s && |eigen.eval| == s
      ensures fresh(tmp) && tmp.Length == s * s
      ensures forall w :: 0 <= w < s * s ==> tmp[w] == ScaledEntry(eigen.evec, eigen.eval, s, w)
    {
      tmp := new real[s * s];
      var i := 0;
      ghost var base := 0;
      while i < s
        invariant 0 <= i <= s && base == i * s
        invariant forall w :: 0 <= w < base ==> tmp[w] == ScaledEntry(eigen.evec, eigen.eval, s, w)
      {
        var j := 0;
        BlockBound(i, s, s);
        while j < s
          invariant 0 <= j <= s
          invariant forall w :: 0 <= w < base + j ==> tmp[w] == ScaledEntry(eigen.evec, eigen.eval, s, w)
        {
          ScaledEntryAt(eigen.evec, eigen.eval, s, i, j);
          tmp[i * s + j] := eigen.evec[i * s + j] * eigen.eval[j];
          j := j + 1;
        }
        NextBlock(i, s);
        base := base + s;
        i := i + 1;
      }
    }

    /**
     * getNoChangeRates(r): r[i] becomes the i-th diagonal entry of
     * evec * diag(eval) * ievc, the rate of staying in state i.
     */
    method GetNoChangeRates(r: array<real>, eigen: Eigen)
      requires r.Length == lay.states
      requires |eigen.evec| == lay.states * lay.states && |eigen.eval| == lay.states
      requires |eigen.ievc| == lay.states * lay.states
      modifies r
      ensures forall i :: 0 <= i < lay.states ==> r[i] == NoChangeRate(eigen.evec, eigen.eval, eigen.ievc, lay.states, i)
    {
      var s := lay.states;
      var tmp := EvecTimesEval(eigen, s);
      var i := 0;
      while i < s
        invariant 0 <= i <= s
        invariant forall w :: 0 <= w < s * s ==> tmp[w] == ScaledEntry(eigen.evec, eigen.eval, s, w)
        invariant forall a :: 0 <= a < i ==> r[a] == NoChangeRate(eigen.evec, eigen.eval, eigen.ievc, s, a)
      {
        DiagonalInto(r, i, tmp, eigen);
        i := i + 1;
      }
    }

    /** The inner loop of getNoChangeRates: r[i] sums the products that make up diagonal entry i. */
    method DiagonalInto(r: array<real>, i: int, tmp: array<real>, eigen: Eigen)
      requires r.Length == lay.states && 0 <= i < lay.states && tmp.Length == lay.states * lay.states
      requires |eigen.evec| == lay.states * lay.states && |eigen.eval| == lay.states
      requires |eigen.ievc| == lay.states * lay.states
      requires forall w :: 0 <= w < lay.states * lay.states ==> tmp[w] == ScaledEntry(eigen.evec, eigen.eval, lay.states, w)
      requires r != tmp
      modifies r
      ensures r[i] == NoChangeRate(eigen.evec, eigen.eval, eigen.ievc, lay.states, i)
      ensures forall a :: 0 <= a < r.Length && a != i ==> r[a] == old(r[a])
    {
      var s := lay.states;
      r[i] := 0.0;
      var j := 0;
      while j < s
        invariant 0 <= j <= s
        invariant r[i] == DiagonalUpTo(eigen.evec, eigen.eval, eigen.ievc, s, i, j)
        invariant forall a :: 0 <= a < r.Length && a != i ==> r[a] == old(r[a])
      {
        DiagonalStep(r, i, j, tmp, eigen);
        j := j + 1;
      }
    }

    /** One pass of the inner loop of getNoChangeRates: r[i] gains the product for column j. */
    method DiagonalStep(r: array<real>, i: int, j: int, tmp: array<real>, eigen: Eigen)
      requires r.Length == lay.states && 0 <= i < lay.states && 0 <= j < lay.states
      requires tmp.Length == lay.states * lay.states && r != tmp
      requires |eigen.evec| == lay.states * lay.states && |eigen.eval| == lay.states
      requires |eigen.ievc| == lay.states * lay.states
      requires forall w :: 0 <= w < lay.states * lay.states ==> tmp[w] == ScaledEntry(eigen.evec, eigen.eval, lay.states, w)
      requires r[i] == DiagonalUpTo(eigen.evec, eigen.eval, eigen.ievc, lay.states, i, j)
      modifies r
      ensures r[i] == DiagonalUpTo(eigen.evec, eigen.eval, eigen.ievc, lay.states, i, j + 1)
      ensures forall a :: 0 <= a < r.Length && a != i ==> r[a] == old(r[a])
    {
      var s := lay.states;
      DiagonalUpToNext(eigen.evec, eigen.eval, eigen.ievc, s, i, j);
      r[i] := r[i] + tmp[i * s + j] * eigen.ievc[j * s + i];
    }

    /** Every scale-buffer entry outside buffer b0 of leaf n0 is as it was. */
    twostate predicate ScalesKeptExcept(b0: int, n0: int)
      reads leafLogScaleFactors
    {
      forall b, j, w ::
        0 <= b < leafLogScaleFactors.Length0 && 0 <= j < leafLogScaleFactors.Length1 &&
        0 <= w < leafLogScaleFactors.Length2 && (b != b0 || j != n0) ==>
          leafLogScaleFactors[b, j, w] == old(leafLogScaleFactors[b, j, w])
    }

    // -------------------------------------------------------------------
    // The leaf branch of traverse: logProbabilities, setLeafScaleForUpdate,
    // calculateLogLeafScale
    // -------------------------------------------------------------------

    /**
     * The loop of the leaf branch of traverse: logProbabilities[c*S + j]
     * becomes time * (rate of category c * branch rate) * rates[j].
     */
    method FillLogProbabilities(time: real, branchRate: real, categoryRates: seq<real>)
      requires Valid() && |categoryRates| == lay.categories
      modifies logProbabilities
      ensures Valid()
      ensures logProbabilities[..] == LogNoChangeVector(lay, time, branchRate, categoryRates, rates[..])
    {
      var s := lay.states;
      var k := 0;
      var i := 0;
      while i < lay.categories
        invariant 0 <= i <= lay.categories && k == i * s
        invariant forall w :: 0 <= w < k ==> logProbabilities[w] == LogNoChange(lay, time, branchRate, categoryRates, rates[..], w)
      {
        var jointBranchRate := categoryRates[i] * branchRate;
        BlockBound(i, lay.categories, s);
        assert lay.categories * s == logProbabilities.Length;
        var j := 0;
        while j < s
          invariant 0 <= j <= s
          invariant forall w :: 0 <= w < k + j ==> logProbabilities[w] == LogNoChange(lay, time, branchRate, categoryRates, rates[..], w)
        {
          DivOfLayout(i, s, j);
          logProbabilities[j + k] := time * jointBranchRate * rates[j];
          j := j + 1;
        }
        NextBlock(i, s);
        k := k + s;
        i := i + 1;
      }
      assert lay.categories * s == logProbabilities.Length;
    }

    /** setLeafScaleForUpdate: leaf n switches to its other scale buffer. */
    method SetLeafScaleForUpdate(n: nat)
      requires Valid() && n < leafNodeCount
      modifies leafIndex
      ensures Valid()
      ensures leafIndex[n] == 1 - old(leafIndex[n])
      ensures forall j :: 0 <= j < leafIndex.Length && j != n ==> leafIndex[j] == old(leafIndex[j])
    {
      leafIndex[n] := 1 - leafIndex[n];
    }

    /**
     * calculateLogLeafScale(n): the active buffer of leaf n gets, at c*P + p,
     * logProbabilities[c*S + states[n][p]]; no other buffer changes.
     */
    method CalculateLogLeafScale(n: nat)
      requires Valid() && n < leafNodeCount
      modifies leafLogScaleFactors
      ensures Valid()
      ensures forall w :: 0 <= w < lay.ScaleLength() ==>
                leafLogScaleFactors[leafIndex[n], n, w] == LeafScaleEntry(lay, logProbabilities[..], states[n], w)
      ensures ScalesKeptExcept(leafIndex[n], n)
    {
      var current := leafIndex[n];
      var patternCount := |states[n]|;
      var v := 0;
      var w := 0;
      var i := 0;
      while i < lay.categories
        invariant 0 <= i <= lay.categories && v == i * lay.states && w == i * patternCount
        invariant forall x :: 0 <= x < w ==>
                    leafLogScaleFactors[current, n, x] == LeafScaleEntry(lay, logProbabilities[..], states[n], x)
        invariant ScalesKeptExcept(current, n)
      {
        BlockBound(i, lay.categories, lay.states);
        BlockBound(i, lay.categories, patternCount);
        assert lay.categories * lay.states == logProbabilities.Length;
        var j := 0;
        while j < patternCount
          invariant 0 <= j <= patternCount && w == i * patternCount + j
          invariant forall x :: 0 <= x < w ==>
                      leafLogScaleFactors[current, n, x] == LeafScaleEntry(lay, logProbabilities[..], states[n], x)
          invariant ScalesKeptExcept(current, n)
        {
          var state := states[n][j];
          DivOfLayout(i, patternCount, j);
          leafLogScaleFactors[current, n, w] := logProbabilities[v + state];
          w := w + 1;
          j := j + 1;
        }
        NextBlock(i, lay.states);
        NextBlock(i, patternCount);
        v := v + lay.states;
        i := i + 1;
      }
    }

    /**
     * The leaf branch of traverse after its cache write: fill
     * logProbabilities, flip leaf n to its other buffer, and fill that buffer
     * with the leaf's log probabilities of no change. The previously active
     * buffer, and every other leaf's buffers, stay as they were.
     */
    method RefreshLeaf(n: nat, time: real, branchRate: real, categoryRates: seq<real>)
      requires Valid() && n < leafNodeCount && |categoryRates| == lay.categories
      modifies logProbabilities, leafIndex, leafLogScaleFactors
      ensures Valid()
      ensures leafIndex[n] == 1 - old(leafIndex[n])
      ensures forall j :: 0 <= j < leafIndex.Length && j != n ==> leafIndex[j] == old(leafIndex[j])
      ensures forall w :: 0 <= w < lay.ScaleLength() ==>
                leafLogScaleFactors[leafIndex[n], n, w] ==
                LeafScaleEntry(lay, LogNoChangeVector(lay, time, branchRate, categoryRates, rates[..]), states[n], w)
      ensures ScalesKeptExcept(leafIndex[n], n)
    {
      FillLogProbabilities(time, branchRate, categoryRates);
      SetLeafScaleForUpdate(n);
      CalculateLogLeafScale(n);
    }

    // -------------------------------------------------------------------
    // accumulateLogLeafScale
    // -------------------------------------------------------------------

    /** Entry w of the active scale buffers of leaves 0 .. m-1, added in leaf order. */
    ghost function LeafScaleSum(w: nat, m: nat): real
      requires ScaleBuffersReady() && m <= leafNodeCount && w < lay.ScaleLength()
      reads this`leafIndex, leafIndex, leafLogScaleFactors
    {
      if m == 0 then 0.0 else LeafScaleSum(w, m - 1) + leafLogScaleFactors[leafIndex[m - 1], m - 1, w]
    }

    /** A choice of scale buffer, 0 or 1, for every leaf. */
    ghost predicate Selectors(sel: seq<int>)
    {
      |sel| == leafNodeCount && forall j :: 0 <= j < |sel| ==> sel[j] == 0 || sel[j] == 1
    }

    /** Entry w of the buffer sel picks for each leaf, in leaf order. */
    ghost function Picked(sel: seq<int>, w: nat): (r: seq<real>)
      requires Selectors(sel) && w < lay.ScaleLength()
      requires leafLogScaleFactors.Length0 == 2 && leafLogScaleFactors.Length1 == leafNodeCount
      requires leafLogScaleFactors.Length2 == lay.ScaleLength()
      reads leafLogScaleFactors
      ensures |r| == leafNodeCount
      ensures forall j :: 0 <= j < leafNodeCount ==> r[j] == leafLogScaleFactors[sel[j], j, w]
    {
      seq(leafNodeCount, j requires 0 <= j < leafNodeCount reads leafLogScaleFactors =>
        leafLogScaleFactors[sel[j], j, w])
    }

    /** Entry w of the buffers sel picks for leaves 0 .. m-1, added in leaf order. */
    ghost function SelectedScaleSum(sel: seq<int>, w: nat, m: nat): real
      requires Selectors(sel) && m <= leafNodeCount && w < lay.ScaleLength()
      requires leafLogScaleFactors.Length0 == 2 && leafLogScaleFactors.Length1 == leafNodeCount
      requires leafLogScaleFactors.Length2 == lay.ScaleLength()
      reads leafLogScaleFactors
    {
      PrefixSum(Picked(sel, w), m)
    }

    /** The accumulated leaf scales when the active buffers are those sel picks. */
    ghost function ScalesOf(sel: seq<int>): (r: seq<real>)
      requires Selectors(sel) && leafLogScaleFactors.Length0 == 2 && leafLogScaleFactors.Length1 == leafNodeCount
      requires leafLogScaleFactors.Length2 == lay.ScaleLength()
      reads leafLogScaleFactors
      ensures |r| == lay.ScaleLength()
    {
      seq(lay.ScaleLength(), w requires 0 <= w < lay.ScaleLength() reads leafLogScaleFactors =>
        SelectedScaleSum(sel, w, leafNodeCount))
    }

    /** The running sum over the active buffers is the sum over the buffers leafIndex selects. */
    lemma {:induction false} LeafScaleSumIsSelected(w: nat, m: nat)
      requires ScaleBuffersReady() && m <= leafNodeCount && w < lay.ScaleLength()
      ensures Selectors(leafIndex[..])
      ensures LeafScaleSum(w, m) == SelectedScaleSum(leafIndex[..], w, m)
    {
      if m > 0 {
        LeafScaleSumIsSelected(w, m - 1);
      }
    }

    /** accumulateLogLeafScale: entry w becomes the sum over the leaves of their active buffers' entry w. */
    method AccumulateLogLeafScale()
      requires Valid()
      modifies accumulatedLogLeafScaleFactors
      ensures Valid()
      ensures forall w :: 0 <= w < lay.ScaleLength() ==> accumulatedLogLeafScaleFactors[w] == LeafScaleSum(w, leafNodeCount)
    {
      var acc := accumulatedLogLeafScaleFactors;
      var n := acc.Length;
      var i := 0;
      while i < n
        invariant 0 <= i <= n
        invariant forall w :: 0 <= w < i ==> acc[w] == 0.0
      {
        acc[i] := 0.0;
        i := i + 1;
      }
      var count := nodeCount / 2 + 1;
      var j := 0;
      while j < count
        invariant 0 <= j <= count
        invariant forall w :: 0 <= w < n ==> acc[w] == LeafScaleSum(w, j)
      {
        var x := leafIndex[j];
        i := 0;
        while i < n
          invariant 0 <= i <= n
          invariant forall w :: 0 <= w < i ==> acc[w] == LeafScaleSum(w, j + 1)
          invariant forall w :: i <= w < n ==> acc[w] == LeafScaleSum(w, j)
        {
          acc[i] := acc[i] + leafLogScaleFactors[x, j, i];
          i := i + 1;
        }
        j := j + 1;
      }
    }

    // -------------------------------------------------------------------
    // integratePartials
    // -------------------------------------------------------------------

    /** The first loop of integratePartials: category 0, without scale correction. */
    method IntegrateFirstCategory(inPartials: seq<real>, proportions: seq<real>)
      requires Valid() && |inPartials| == lay.categories * lay.Block() && |proportions| == lay.categories
      modifies rootPartials
      ensures Valid()
      ensures forall u :: 0 <= u < lay.Block() ==> rootPartials[u] == FirstCategory(inPartials, proportions, u)
    {
      var u := 0;
      var k := 0;
      while k < lay.patterns
        invariant 0 <= k <= lay.patterns && u == k * lay.states
        invariant forall x :: 0 <= x < u ==> rootPartials[x] == FirstCategory(inPartials, proportions, x)
      {
        BlockBound(k, lay.patterns, lay.states);
        BlockBound(0, lay.categories, lay.Block());
        var i := 0;
        while i < lay.states
          invariant 0 <= i <= lay.states && u == k * lay.states + i
          invariant forall x :: 0 <= x < u ==> rootPartials[x] == FirstCategory(inPartials, proportions, x)
        {
          rootPartials[u] := inPartials[u] * proportions[0];
          u := u + 1;
          i := i + 1;
        }
        NextBlock(k, lay.states);
        k := k + 1;
      }
    }

    /**
     * One pass of the second loop of integratePartials: category l is added to
     * every root partial, corrected by the scale entry that `ix` selects (the
     * code's reading, or the layout's).
     */
    method AddCategory(inPartials: seq<real>, proportions: seq<real>, exp: real -> real, l: nat, ix: ScaleIndexing)
      requires rootPartials.Length == lay.Block() && accumulatedLogLeafScaleFactors.Length == lay.ScaleLength()
      requires rootPartials != accumulatedLogLeafScaleFactors
      requires |inPartials| == lay.categories * lay.Block() && |proportions| == lay.categories
      requires 1 <= l < lay.categories
      requires ix == ByPatternState ==> lay.Block() <= lay.ScaleLength()
      requires forall x :: 0 <= x < lay.Block() ==>
                 rootPartials[x] == IntegratedUpTo(lay, inPartials, proportions, accumulatedLogLeafScaleFactors[..], exp, x, l, ix)
      modifies rootPartials
      ensures forall x :: 0 <= x < lay.Block() ==>
                rootPartials[x] == IntegratedUpTo(lay, inPartials, proportions, accumulatedLogLeafScaleFactors[..], exp, x, l + 1, ix)
    {
      var u := 0;
      var k := 0;
      while k < lay.patterns
        invariant 0 <= k <= lay.patterns && u == k * lay.states
        invariant forall x :: 0 <= x < u ==>
                    rootPartials[x] == IntegratedUpTo(lay, inPartials, proportions, accumulatedLogLeafScaleFactors[..], exp, x, l + 1, ix)
        invariant forall x :: u <= x < lay.Block() ==>
                    rootPartials[x] == IntegratedUpTo(lay, inPartials, proportions, accumulatedLogLeafScaleFactors[..], exp, x, l, ix)
      {
        BlockBound(k, lay.patterns, lay.states);
        AddCategoryPattern(inPartials, proportions, exp, l, k, u, l * lay.Block() + u, ix);
        forall x | u <= x < u + lay.states
          ensures rootPartials[x] == IntegratedUpTo(lay, inPartials, proportions, accumulatedLogLeafScaleFactors[..], exp, x, l + 1, ix)
        {
          IntegratedUpToStep(lay, inPartials, proportions, accumulatedLogLeafScaleFactors[..], exp, x, l, ix);
        }
        NextBlock(k, lay.states);
        u := u + lay.states;
        k := k + 1;
      }
    }

    /** The innermost loop of AddCategory: category l of pattern k, entries u0 = k*S .. k*S + S - 1. */
    method AddCategoryPattern(inPartials: seq<real>, proportions: seq<real>, exp: real -> real,
                              l: nat, k: nat, u0: nat, v0: nat, ix: ScaleIndexing)
      requires rootPartials.Length == lay.Block() && accumulatedLogLeafScaleFactors.Length == lay.ScaleLength()
      requires rootPartials != accumulatedLogLeafScaleFactors
      requires |inPartials| == lay.categories * lay.Block() && |proportions| == lay.categories
      requires 1 <= l < lay.categories && k < lay.patterns && u0 == k * lay.states && u0 + lay.states <= lay.Block()
      requires v0 == l * lay.Block() + u0
      requires ix == ByPatternState ==> lay.Block() <= lay.ScaleLength()
      modifies rootPartials
      ensures forall x :: u0 <= x < u0 + lay.states ==>
                rootPartials[x] == old(rootPartials[x]) + CategoryTerm(lay, inPartials, proportions, accumulatedLogLeafScaleFactors[..], exp, x, l, ix)
      ensures forall x :: 0 <= x < rootPartials.Length && !(u0 <= x < u0 + lay.states) ==>
                rootPartials[x] == old(rootPartials[x])
    {
      ghost var acc := accumulatedLogLeafScaleFactors[..];
      var u := u0;
      var v := v0;
      var i := 0;
      while i < lay.states
        invariant 0 <= i <= lay.states && u == u0 + i && v == v0 + i
        invariant forall x :: u0 <= x < u ==>
                    rootPartials[x] == old(rootPartials[x]) + CategoryTerm(lay, inPartials, proportions, acc, exp, x, l, ix)
        invariant forall x :: 0 <= x < rootPartials.Length && !(u0 <= x < u) ==>
                    rootPartials[x] == old(rootPartials[x])
      {
        AddCategoryEntry(inPartials, proportions, exp, l, k, i, u, v, ix);
        u := u + 1;
        v := v + 1;
        i := i + 1;
      }
    }

    /** One step of the innermost loop: root partial u = k*S + i gains the term of category l. */
    method AddCategoryEntry(inPartials: seq<real>, proportions: seq<real>, exp: real -> real,
                            l: nat, k: nat, i: nat, u: nat, v: nat, ix: ScaleIndexing)
      requires rootPartials.Length == lay.Block() && accumulatedLogLeafScaleFactors.Length == lay.ScaleLength()
      requires rootPartials != accumulatedLogLeafScaleFactors
      requires |inPartials| == lay.categories * lay.Block() && |proportions| == lay.categories
      requires 1 <= l < lay.categories && k < lay.patterns && i < lay.states && u == k * lay.states + i
      requires u < lay.Block() && v == l * lay.Block() + u
      requires ix == ByPatternState ==> lay.Block() <= lay.ScaleLength()
      modifies rootPartials
      ensures rootPartials[u] == old(rootPartials[u]) +
                CategoryTerm(lay, inPartials, proportions, accumulatedLogLeafScaleFactors[..], exp, u, l, ix)
      ensures forall x :: 0 <= x < rootPartials.Length && x != u ==> rootPartials[x] == old(rootPartials[x])
    {
      var scale := if ix == ByPatternState then u else l * lay.patterns + k;
      ByCategoryReadsPattern(lay, k, i, l);
      ByCategoryStaysInBuffer(lay, u, l);
      CategoryTermAt(lay, inPartials, proportions, accumulatedLogLeafScaleFactors[..], exp, u, v, l, ix);
      rootPartials[u] := rootPartials[u] + inPartials[v] * proportions[l] * exp(accumulatedLogLeafScaleFactors[scale]);
    }

    /**
     * integratePartials: category 0 uncorrected, then categories 1 .. C-1 in
     * order, each corrected by the scale entry that `ix` selects.
     */
    method IntegrateCategories(inPartials: seq<real>, proportions: seq<real>, exp: real -> real, ix: ScaleIndexing)
      requires Valid() && |inPartials| == lay.categories * lay.Block() && |proportions| == lay.categories
      requires ix == ByPatternState && lay.categories > 1 ==> lay.Block() <= lay.ScaleLength()
      modifies rootPartials
      ensures Valid()
      ensures forall u :: 0 <= u < lay.Block() ==>
                rootPartials[u] == Integrated(lay, inPartials, proportions, accumulatedLogLeafScaleFactors[..], exp, u, ix)
    {
      IntegrateFirstCategory(inPartials, proportions);
      var l := 1;
      while l < |proportions|
        invariant 1 <= l <= |proportions|
        invariant forall x :: 0 <= x < lay.Block() ==>
                    rootPartials[x] == IntegratedUpTo(lay, inPartials, proportions, accumulatedLogLeafScaleFactors[..], exp, x, l, ix)
      {
        AddCategory(inPartials, proportions, exp, l, ix);
        l := l + 1;
      }
    }

    /**
     * integratePartials as written: category l >= 1 at root-partial index u
     * is corrected by exp(accumulatedLogLeafScaleFactors[u]), which needs a
     * scale buffer at least as long as the root partials whenever there is
     * more than one category (ByPatternStateOverruns shows a layout where it
     * is not).
     */
    method IntegratePartials(inPartials: seq<real>, proportions: seq<real>, exp: real -> real)
      requires Valid() && |inPartials| == lay.categories * lay.Block() && |proportions| == lay.categories
      requires lay.categories > 1 ==> lay.Block() <= lay.ScaleLength()
      modifies rootPartials
      ensures Valid()
      ensures forall u :: 0 <= u < lay.Block() ==>
                rootPartials[u] == Integrated(lay, inPartials, proportions, accumulatedLogLeafScaleFactors[..], exp, u, ByPatternState)
    {
      IntegrateCategories(inPartials, proportions, exp, ByPatternState);
    }

    /**
     * integratePartials with the scale entry the buffer layout calls for:
     * category l >= 1 of pattern k is corrected by
     * exp(accumulatedLogLeafScaleFactors[l*P + k]), always inside the buffer.
     */
    method IntegratePartialsByCategory(inPartials: seq<real>, proportions: seq<real>, exp: real -> real)
      requires Valid() && |inPartials| == lay.categories * lay.Block() && |proportions| == lay.categories
      modifies rootPartials
      ensures Valid()
      ensures forall u :: 0 <= u < lay.Block() ==>
                rootPartials[u] == Integrated(lay, inPartials, proportions, accumulatedLogLeafScaleFactors[..], exp, u, ByCategoryPattern)
    {
      IntegrateCategories(inPartials, proportions, exp, ByCategoryPattern);
    }

    // -------------------------------------------------------------------
    // calcLogP: the invariant proportion, calculateLogLikelihoods and the
    // weighted sum
    // -------------------------------------------------------------------

    /** The constant-pattern list names root-partial entries only. */
    ghost predicate ConstantPatternFits()
      reads this`constantPattern
    {
      constantPattern.Some? ==> forall j :: 0 <= j < |constantPattern.value| ==> constantPattern.value[j] < lay.Block()
    }

    /** The loop of calcLogP over constantPattern: each listed root partial gains proportionInvariant. */
    method AddProportionInvariant()
      requires rootPartials.Length == lay.Block() && constantPattern.Some? && ConstantPatternFits()
      modifies rootPartials
      ensures InvariantAdded(old(rootPartials[..]), rootPartials[..], constantPattern.value, proportionInvariant)
    {
      var cp := constantPattern.value;
      ghost var start := rootPartials[..];
      var i := 0;
      while i < |cp|
        invariant 0 <= i <= |cp|
        invariant InvariantAdded(start, rootPartials[..], cp[..i], proportionInvariant)
      {
        ghost var before := rootPartials[..];
        rootPartials[cp[i]] := rootPartials[cp[i]] + proportionInvariant;
        InvariantAddedStep(start, before, rootPartials[..], cp, i, proportionInvariant);
        i := i + 1;
      }
      assert cp[..i] == cp;
    }

    /** The inner loop of calculateLogLikelihoods: the frequency-weighted sum of root partials v0 .. v0+S-1. */
    method PatternSum(frequencies: seq<real>, v0: nat) returns (sum: real)
      requires |frequencies| == lay.states && v0 + lay.states <= rootPartials.Length
      ensures sum == FrequencyWeighted(rootPartials[..], frequencies, v0, lay.states)
    {
      sum := 0.0;
      var i := 0;
      while i < lay.states
        invariant 0 <= i <= lay.states
        invariant sum == FrequencyWeighted(rootPartials[..], frequencies, v0, i)
      {
        sum := sum + frequencies[i] * rootPartials[v0 + i];
        i := i + 1;
      }
    }

    /**
     * calculateLogLikelihoods: pattern k's log-likelihood is the log of its
     * frequency-weighted root partials plus the core's log scaling factor.
     */
    method CalculateLogLikelihoods(frequencies: seq<real>, log: real -> Ext, logScale: nat -> real)
      requires rootPartials.Length == lay.Block() && patternLogLikelihoods.Length == lay.patterns
      requires |frequencies| == lay.states
      modifies patternLogLikelihoods
      ensures patternLogLikelihoods[..] == PatternLogLikelihoods(lay, rootPartials[..], frequencies, log, logScale)
    {
      var v := 0;
      var k := 0;
      while k < lay.patterns
        invariant 0 <= k <= lay.patterns && v == k * lay.states
        invariant forall j :: 0 <= j < k ==>
                    patternLogLikelihoods[j] == PatternLogLikelihood(lay, rootPartials[..], frequencies, j, log, logScale)
      {
        BlockBound(k, lay.patterns, lay.states);
        var sum := PatternSum(frequencies, v);
        patternLogLikelihoods[k] := Add(log(sum), Fin(logScale(k)));
        NextBlock(k, lay.states);
        v := v + lay.states;
        k := k + 1;
      }
    }

    /** The loop of calcLogP: logP as the weighted sum of the pattern log-likelihoods. */
    method SumLogP(weights: seq<int>, ascertainment: Option<real>)
      requires patternLogLikelihoods.Length == lay.patterns && PositiveWeights(weights, lay.patterns)
      modifies this`logP
      ensures logP == WeightedLogP(patternLogLikelihoods[..], weights, lay.patterns, ascertainment)
    {
      logP := Fin(0.0);
      var i := 0;
      while i < lay.patterns
        invariant 0 <= i <= lay.patterns
        invariant logP == WeightedLogP(patternLogLikelihoods[..], weights, i, ascertainment)
      {
        var term := match ascertainment
                    case Some(c) => Times(weights[i], Minus(patternLogLikelihoods[i], c))
                    case None => Times(weights[i], patternLogLikelihoods[i]);
        logP := Add(logP, term);
        i := i + 1;
      }
    }

    /**
     * The first half of calcLogP: accumulate the leaf scales, integrate the
     * root partials over the categories (with the scale entry of each
     * category and pattern), and add the invariant proportion at the
     * constant patterns.
     */
    method RootPartialsForLogP(site: SiteModel, core: CoreView, exp: real -> real)
      requires Valid() && ConstantPatternFits()
      requires |core.rawRootPartials| == lay.categories * lay.Block() && |site.proportions| == lay.categories
      modifies accumulatedLogLeafScaleFactors, rootPartials, this`proportionInvariant
      ensures Valid()
      ensures forall w :: 0 <= w < lay.ScaleLength() ==> accumulatedLogLeafScaleFactors[w] == LeafScaleSum(w, leafNodeCount)
      ensures rootPartials[..] == RootPartialsAfter(lay, core.rawRootPartials, site.proportions,
                                                    accumulatedLogLeafScaleFactors[..], exp,
                                                    constantPattern, proportionInvariant)
      ensures constantPattern.Some? ==> proportionInvariant == site.proportionInvariant
      ensures constantPattern.None? ==> proportionInvariant == old(proportionInvariant)
    {
      AccumulateLogLeafScale();
      IntegratePartialsByCategory(core.rawRootPartials, site.proportions, exp);
      ghost var integrated := rootPartials[..];
      if constantPattern.Some? {
        proportionInvariant := site.proportionInvariant;
        AddProportionInvariant();
      }
      RootPartialsAfterIntro(lay, core.rawRootPartials, site.proportions, accumulatedLogLeafScaleFactors[..], exp,
                             constantPattern, proportionInvariant, integrated, rootPartials[..]);
    }

    /**
     * What calcLogP leaves behind when it ran on what the core reported: each
     * accumulated leaf scale is the sum over the leaves' active buffers, the
     * root partials are integrated from the core's partials with those
     * scales, the pattern log-likelihoods come from the root partials and the
     * core's scaling, and logP weighs them.
     */
    ghost predicate LogPComputed(site: SiteModel, core: CoreView, pats: Patterns, exp: real -> real, log: real -> Ext)
      reads this`leafIndex, leafIndex, leafLogScaleFactors, this`accumulatedLogLeafScaleFactors,
            accumulatedLogLeafScaleFactors, rootPartials, patternLogLikelihoods, this`logP,
            this`constantPattern, this`proportionInvariant
    {
      ScaleBuffersReady() && accumulatedLogLeafScaleFactors.Length == lay.ScaleLength() &&
      patternLogLikelihoods.Length == lay.patterns && PositiveWeights(pats.weights, lay.patterns) &&
      (forall w :: 0 <= w < lay.ScaleLength() ==> accumulatedLogLeafScaleFactors[w] == LeafScaleSum(w, leafNodeCount)) &&
      rootPartials[..] == RootPartialsAfter(lay, core.rawRootPartials, site.proportions,
                                            accumulatedLogLeafScaleFactors[..], exp, constantPattern, proportionInvariant) &&
      patternLogLikelihoods[..] == PatternLogLikelihoods(lay, rootPartials[..], site.frequencies, log, core.logScale) &&
      logP == LogPOf(lay, patternLogLikelihoods[..], pats.weights, pats.ascertained, pats.correction)
    }

    /**
     * logP as calcLogP computes it from what the core reported, when the
     * leaves' active scale buffers are those sel picks.
     */
    ghost function LogPWith(sel: seq<int>, site: SiteModel, core: CoreView, pats: Patterns, exp: real -> real, log: real -> Ext): Ext
      requires Selectors(sel) && leafLogScaleFactors.Length0 == 2 && leafLogScaleFactors.Length1 == leafNodeCount
      requires leafLogScaleFactors.Length2 == lay.ScaleLength() && PositiveWeights(pats.weights, lay.patterns)
      reads leafLogScaleFactors, this`constantPattern, this`proportionInvariant
    {
      var partials := RootPartialsAfter(lay, core.rawRootPartials, site.proportions, ScalesOf(sel), exp,
                                        constantPattern, proportionInvariant);
      LogPOf(lay, PatternLogLikelihoods(lay, partials, site.frequencies, log, core.logScale),
             pats.weights, pats.ascertained, pats.correction)
    }

    /** What calcLogP leaves behind fixes logP to the reference value over the active buffers. */
    lemma LogPComputedWith(site: SiteModel, core: CoreView, pats: Patterns, exp: real -> real, log: real -> Ext)
      requires LogPComputed(site, core, pats, exp, log)
      ensures Selectors(leafIndex[..]) && logP == LogPWith(leafIndex[..], site, core, pats, exp, log)
    {
      forall w | 0 <= w < lay.ScaleLength()
        ensures accumulatedLogLeafScaleFactors[w] == ScalesOf(leafIndex[..])[w]
      {
        LeafScaleSumIsSelected(w, leafNodeCount);
      }
      assert accumulatedLogLeafScaleFactors[..] == ScalesOf(leafIndex[..]);
    }

    /**
     * calcLogP: the root partials as above, then the pattern log-likelihoods,
     * weighed into logP.
     */
    method CalcLogP(site: SiteModel, core: CoreView, pats: Patterns, exp: real -> real, log: real -> Ext)
      requires Valid() && ConstantPatternFits()
      requires |core.rawRootPartials| == lay.categories * lay.Block() && |site.proportions| == lay.categories
      requires |site.frequencies| == lay.states && PositiveWeights(pats.weights, lay.patterns)
      modifies accumulatedLogLeafScaleFactors, rootPartials, patternLogLikelihoods, this`logP, this`proportionInvariant
      ensures Valid()
      ensures forall w :: 0 <= w < lay.ScaleLength() ==> accumulatedLogLeafScaleFactors[w] == LeafScaleSum(w, leafNodeCount)
      ensures rootPartials[..] == RootPartialsAfter(lay, core.rawRootPartials, site.proportions,
                                                    accumulatedLogLeafScaleFactors[..], exp,
                                                    constantPattern, proportionInvariant)
      ensures constantPattern.Some? ==> proportionInvariant == site.proportionInvariant
      ensures constantPattern.None? ==> proportionInvariant == old(proportionInvariant)
      ensures patternLogLikelihoods[..] == PatternLogLikelihoods(lay, rootPartials[..], site.frequencies, log, core.logScale)
      ensures logP == LogPOf(lay, patternLogLikelihoods[..], pats.weights, pats.ascertained, pats.correction)
      ensures LogPComputed(site, core, pats, exp, log)
    {
      RootPartialsForLogP(site, core, exp);
      CalculateLogLikelihoods(site.frequencies, log, core.logScale);
      var ascertainment := if pats.ascertained then Some(pats.correction(patternLogLikelihoods[..])) else None;
      SumLogP(pats.weights, ascertainment);
    }

    /** calcLogP as calculateLogP uses it: logP is the one the active leaf buffers determine. */
    method RecomputeLogP(site: SiteModel, core: CoreView, pats: Patterns, exp: real -> real, log: real -> Ext)
      requires Valid() && ConstantPatternFits()
      requires |core.rawRootPartials| == lay.categories * lay.Block() && |site.proportions| == lay.categories
      requires |site.frequencies| == lay.states && PositiveWeights(pats.weights, lay.patterns)
      modifies accumulatedLogLeafScaleFactors, rootPartials, patternLogLikelihoods, this`logP, this`proportionInvariant
      ensures Valid() && LogPComputed(site, core, pats, exp, log)
      ensures Selectors(leafIndex[..]) && logP == LogPWith(leafIndex[..], site, core, pats, exp, log)
      ensures proportionInvariant == if constantPattern.Some? then site.proportionInvariant else old(proportionInvariant)
    {
      CalcLogP(site, core, pats, exp, log);
      LogPComputedWith(site, core, pats, exp, log);
    }

    // -------------------------------------------------------------------
    // traverse
    // -------------------------------------------------------------------

    /**
     * Leaf m's active scale buffer holds, at c*P + p, the log probability of
     * no change in its state at pattern p along its branch in category c.
     */
    ghost predicate LeafScaleFresh(m: TNode, categoryRates: seq<real>)
      reads this`leafIndex, leafIndex, leafLogScaleFactors, this`rates, rates
    {
      ScaleBuffersReady() && |states| == leafNodeCount && m.Leaf? && m.nr < leafNodeCount &&
      forall w :: 0 <= w < lay.ScaleLength() ==>
        leafLogScaleFactors[leafIndex[m.nr], m.nr, w] ==
        LeafScaleEntry(lay, LogNoChangeVector(lay, m.length, m.branchRate, categoryRates, rates[..]), states[m.nr], w)
    }

    /** Every leaf of the tree has a fresh active scale buffer. */
    ghost predicate AllLeavesFresh(root: TNode, categoryRates: seq<real>)
      reads this`leafIndex, leafIndex, leafLogScaleFactors, this`rates, rates
    {
      forall m :: LeafIn(m, root) ==> LeafScaleFresh(m, categoryRates)
    }

    /** Every leaf of the tree whose number is in R has a fresh active scale buffer. */
    ghost predicate LeavesFresh(root: TNode, R: set<nat>, categoryRates: seq<real>)
      reads this`leafIndex, leafIndex, leafLogScaleFactors, this`rates, rates
    {
      forall m :: LeafIn(m, root) && m.nr in R ==> LeafScaleFresh(m, categoryRates)
    }

    /**
     * Leaf j's active scale buffer holds the log probabilities of no change
     * for the branch time the cache holds for it. That time already carries
     * the branch rate, so the rate passed along is 1.
     */
    ghost predicate CachedScaleFresh(j: nat, categoryRates: seq<real>)
      reads this`leafIndex, leafIndex, leafLogScaleFactors, this`rates, rates, this`branchLengths, branchLengths
    {
      ScaleBuffersReady() && |states| == leafNodeCount && j < leafNodeCount && j < branchLengths.Length &&
      forall w :: 0 <= w < lay.ScaleLength() ==>
        leafLogScaleFactors[leafIndex[j], j, w] ==
        LeafScaleEntry(lay, LogNoChangeVector(lay, branchLengths[j], 1.0, categoryRates, rates[..]), states[j], w)
    }

    /** Every leaf of the tree whose selector differs from the stored one has a fresh active buffer. */
    ghost predicate FreshWhereUnstored(root: TNode, categoryRates: seq<real>)
      reads this`leafIndex, leafIndex, this`storedLeafIndex, storedLeafIndex, leafLogScaleFactors, this`rates, rates
    {
      forall m ::
        LeafIn(m, root) && m.nr < leafIndex.Length && m.nr < storedLeafIndex.Length &&
        leafIndex[m.nr] != storedLeafIndex[m.nr] ==>
          LeafScaleFresh(m, categoryRates)
    }

    /** The entries the current selection picks for each leaf off its stored selector are fresh. */
    lemma FreshEntries(root: TNode, sel: seq<int>, entries: seq<seq<real>>, r: seq<real>, categoryRates: seq<real>)
      requires ScaleBuffersReady() && Selectors(sel) && sel == leafIndex[..] && r == rates[..]
      requires |entries| == lay.ScaleLength() && forall w :: 0 <= w < |entries| ==> entries[w] == Picked(sel, w)
      requires FreshWhereUnstored(root, categoryRates)
      ensures forall w :: 0 <= w < |entries| ==> |entries[w]| == leafNodeCount
      ensures ScalesOf(sel) == SumsOf(entries, leafNodeCount)
      ensures forall m, w ::
                (LeafIn(m, root) && m.nr < |sel| && m.nr < storedLeafIndex.Length &&
                 sel[m.nr] != storedLeafIndex[m.nr] && 0 <= w < |entries|) ==>
                  m.nr < |entries[w]| && m.Leaf? && m.nr < |states| &&
                  entries[w][m.nr] == LeafScaleEntry(lay, LogNoChangeVector(lay, m.length, m.branchRate, categoryRates, r), states[m.nr], w)
    {
    }

    /**
     * A selection whose entries were fresh wherever it left the stored
     * selectors keeps every entry through a retraversal that refreshes each
     * leaf from the stored selectors: the buffers it shares with the new
     * selection are rewritten with the same fresh entries, the others are
     * untouched.
     */
    lemma FreshSelectionKept(root: TNode, sel: seq<int>, entries: seq<seq<real>>, r: seq<real>, categoryRates: seq<real>)
      requires ScaleBuffersReady() && Selectors(sel) && r == rates[..] && storedLeafIndex.Length == leafNodeCount
      requires leafIndex[..] == Flipped(storedLeafIndex[..], LeafNrs(root))
      requires AllLeavesFresh(root, categoryRates)
      requires |entries| == lay.ScaleLength() && forall w :: 0 <= w < |entries| ==> |entries[w]| == leafNodeCount
      requires forall j, w :: 0 <= j < leafNodeCount && 0 <= w < |entries| && !(j in LeafNrs(root) && leafIndex[j] == sel[j]) ==>
                 leafLogScaleFactors[sel[j], j, w] == entries[w][j]
      requires forall m, w ::
                 (LeafIn(m, root) && m.nr < |sel| && m.nr < storedLeafIndex.Length &&
                  sel[m.nr] != storedLeafIndex[m.nr] && 0 <= w < |entries|) ==>
                   m.nr < |entries[w]| && m.Leaf? && m.nr < |states| &&
                   entries[w][m.nr] == LeafScaleEntry(lay, LogNoChangeVector(lay, m.length, m.branchRate, categoryRates, r), states[m.nr], w)
      ensures ScalesOf(sel) == SumsOf(entries, leafNodeCount)
    {
      forall w | 0 <= w < |entries|
        ensures Picked(sel, w) == entries[w]
      {
        forall j | 0 <= j < leafNodeCount
          ensures Picked(sel, w)[j] == entries[w][j]
        {
          if j in LeafNrs(root) && leafIndex[j] == sel[j] {
            LeafWithNr(j, root);
            var m :| LeafIn(m, root) && m.nr == j;
            assert LeafScaleFresh(m, categoryRates);
          }
        }
      }
    }

    /** When the selectors are the stored ones with the fresh leaves in R flipped, every leaf off its stored selector is fresh. */
    lemma FreshWhereFlipped(root: TNode, R: set<nat>, stored: seq<int>, categoryRates: seq<real>)
      requires storedLeafIndex[..] == stored && leafIndex[..] == Flipped(stored, R)
      requires LeavesFresh(root, R, categoryRates)
      ensures FreshWhereUnstored(root, categoryRates)
    {
      forall m | LeafIn(m, root) && m.nr < leafIndex.Length && m.nr < storedLeafIndex.Length &&
                 leafIndex[m.nr] != storedLeafIndex[m.nr]
        ensures LeafScaleFresh(m, categoryRates)
      {
        assert m.nr in R;
      }
    }

    /**
     * What an incremental evaluation relies on between two calls: the active
     * buffer of every leaf of the tree matches the branch time cached for it.
     */
    ghost predicate ScalesMatchCache(root: TNode, categoryRates: seq<real>)
      reads this`leafIndex, leafIndex, leafLogScaleFactors, this`rates, rates, this`branchLengths, branchLengths
    {
      forall m :: LeafIn(m, root) ==> CachedScaleFresh(m.nr, categoryRates)
    }

    /**
     * Once the cache holds every branch time of the tree, its leaves match
     * the cache exactly when every leaf is fresh.
     */
    lemma ScalesMatchCacheIff(root: TNode, categoryRates: seq<real>)
      requires SlotsIn(root, nodeCount, branchLengths.Length) && Consistent(root, branchLengths[..], nodeCount, true)
      ensures ScalesMatchCache(root, categoryRates) <==> AllLeavesFresh(root, categoryRates)
    {
      forall m | LeafIn(m, root)
        ensures CachedScaleFresh(m.nr, categoryRates) <==> LeafScaleFresh(m, categoryRates)
      {
        ConsistentLeaf(m, root, branchLengths[..], nodeCount, true);
        FreshFromCache(m, categoryRates);
      }
    }

    /** A leaf whose cache slot holds its branch time is fresh exactly when it matches the cache. */
    lemma FreshFromCache(m: TNode, categoryRates: seq<real>)
      requires m.Leaf? && m.nr < branchLengths.Length && branchLengths[m.nr] == BranchTime(m, false)
      ensures CachedScaleFresh(m.nr, categoryRates) <==> LeafScaleFresh(m, categoryRates)
    {
      FoldedBranchRate(lay, branchLengths[m.nr], m.length, m.branchRate, categoryRates, rates[..]);
    }

    /**
     * When the leaves match the cache, every leaf a traversal would not
     * refresh is already fresh: its cached time is its branch time.
     */
    lemma UnrefreshedLeavesFresh(root: TNode, hasDirt: Dirt, categoryRates: seq<real>)
      requires SlotsIn(root, nodeCount, branchLengths.Length) && DistinctSlots(root, nodeCount)
      requires ScalesMatchCache(root, categoryRates)
      ensures forall m :: LeafIn(m, root) && m.nr !in RefreshedLeaves(root, hasDirt, branchLengths[..], nodeCount, true) ==>
                LeafScaleFresh(m, categoryRates)
    {
      forall m | LeafIn(m, root) && m.nr !in RefreshedLeaves(root, hasDirt, branchLengths[..], nodeCount, true)
        ensures LeafScaleFresh(m, categoryRates)
      {
        LeafInIsLeaf(m, root);
        UnrefreshedLeafCached(root, hasDirt, branchLengths[..], nodeCount, true, m);
        FreshFromCache(m, categoryRates);
      }
    }

    /** When a traversal refreshes every leaf of the tree, every leaf is fresh. */
    lemma EveryLeafRefreshed(root: TNode, R: set<nat>, categoryRates: seq<real>)
      requires R == LeafNrs(root) && LeavesFresh(root, R, categoryRates)
      ensures AllLeavesFresh(root, categoryRates)
    {
      forall m | LeafIn(m, root)
        ensures m.nr in R
      {
        LeafNrOf(m, root);
      }
    }

    /** Every scale-buffer entry is as it was, except the now-active buffer of each leaf in R. */
    twostate predicate ScalesKeptOutside(R: set<nat>)
      reads this`leafIndex, leafIndex, leafLogScaleFactors
    {
      forall b, j, w ::
        0 <= b < leafLogScaleFactors.Length0 && 0 <= j < leafLogScaleFactors.Length1 &&
        0 <= w < leafLogScaleFactors.Length2 &&
        !(j in R && j < leafIndex.Length && b == leafIndex[j]) ==>
          leafLogScaleFactors[b, j, w] == old(leafLogScaleFactors[b, j, w])
    }

    /** The haplotype check of traverse: the partial branch below a haplotype start is recomputed when dirty or changed. */
    method TraverseHaplo(n: TNode) returns (update: Dirt)
      requires Valid() && SlotsIn(n, nodeCount, branchLengths.Length)
      modifies branchLengths
      ensures Valid()
      ensures update == HaploStatus(n, hasDirt, old(branchLengths[..]), nodeCount)
      ensures branchLengths[..] == HaploCache(n, hasDirt, old(branchLengths[..]), nodeCount)
    {
      update := n.dirt | hasDirt;
      if n.haplo.Some? {
        var slot := nodeCount + n.haplo.value.haploNr;
        if update != CLEAN || n.haplo.value.partBranchTime != branchLengths[slot] {
          branchLengths[slot] := n.haplo.value.partBranchTime;
          update := update | DIRTY;
        }
      }
    }

    /**
     * The branch step of traverse after the haplotype check: the node's own
     * branch is recomputed when update is not CLEAN or its time changed; at a
     * leaf this also refreshes the leaf's scale buffer.
     */
    method TraverseBranch(n: TNode, isRoot: bool, update: Dirt, categoryRates: seq<real>) returns (update': Dirt, refreshed: bool)
      requires Valid() && n.nr < nodeCount && (n.Leaf? ==> n.nr < leafNodeCount)
      requires |categoryRates| == lay.categories
      modifies branchLengths, logProbabilities, leafIndex, leafLogScaleFactors
      ensures Valid()
      ensures refreshed <==> update != CLEAN || BranchTime(n, isRoot) != old(branchLengths[n.nr])
      ensures update' == if refreshed then update | DIRTY else update
      ensures branchLengths[..] == if refreshed then old(branchLengths[..])[n.nr := BranchTime(n, isRoot)]
                                   else old(branchLengths[..])
      ensures forall j :: 0 <= j < leafNodeCount ==>
                leafIndex[j] == if n.Leaf? && refreshed && j == n.nr then 1 - old(leafIndex[j]) else old(leafIndex[j])
      ensures ScalesKeptOutside(if n.Leaf? && refreshed then {n.nr} else {})
      ensures n.Leaf? && refreshed ==> LeafScaleFresh(n, categoryRates)
      ensures forall m :: old(LeafScaleFresh(m, categoryRates)) && !(n.Leaf? && refreshed && m.nr == n.nr) ==>
                LeafScaleFresh(m, categoryRates)
    {
      update' := update;
      var totalBranchTime := if n.Leaf? then n.length else if isRoot then 0.0 else n.length;
      var branchTime := totalBranchTime * n.branchRate;
      refreshed := update != CLEAN || branchTime != branchLengths[n.nr];
      assert branchTime == BranchTime(n, isRoot);
      if refreshed {
        branchLengths[n.nr] := branchTime;
        update' := update | DIRTY;
      }
      ghost var cache := branchLengths[..];
      RefreshIfLeaf(n, refreshed, categoryRates);
      assert branchLengths[..] == cache;
    }

    /**
     * The leaf part of the branch step, when the branch was refreshed: the
     * leaf switches buffers, its new buffer is fresh, and every other leaf's
     * fresh buffer stays fresh. Nothing happens otherwise.
     */
    method RefreshIfLeaf(n: TNode, refresh: bool, categoryRates: seq<real>)
      requires Valid() && (n.Leaf? ==> n.nr < leafNodeCount) && |categoryRates| == lay.categories
      modifies logProbabilities, leafIndex, leafLogScaleFactors
      ensures Valid()
      ensures forall j :: 0 <= j < leafNodeCount ==>
                leafIndex[j] == if n.Leaf? && refresh && j == n.nr then 1 - old(leafIndex[j]) else old(leafIndex[j])
      ensures ScalesKeptOutside(if n.Leaf? && refresh then {n.nr} else {})
      ensures n.Leaf? && refresh ==> LeafScaleFresh(n, categoryRates)
      ensures forall m :: old(LeafScaleFresh(m, categoryRates)) && !(n.Leaf? && refresh && m.nr == n.nr) ==>
                LeafScaleFresh(m, categoryRates)
    {
      if n.Leaf? && refresh {
        RefreshLeaf(n.nr, n.length, n.branchRate, categoryRates);
      }
    }

    /** The node's own part of traverse: the haplotype check, then its own branch. */
    method TraverseOwn(n: TNode, isRoot: bool, categoryRates: seq<real>) returns (update: Dirt)
      requires Valid() && SlotsIn(n, nodeCount, branchLengths.Length) && n.nr < nodeCount
      requires n.Leaf? ==> n.nr < leafNodeCount
      requires |categoryRates| == lay.categories
      modifies branchLengths, logProbabilities, leafIndex, leafLogScaleFactors
      ensures Valid()
      ensures update == OwnStatus(n, hasDirt, old(branchLengths[..]), nodeCount, isRoot)
      ensures branchLengths[..] == OwnCache(n, hasDirt, old(branchLengths[..]), nodeCount, isRoot)
      ensures forall j :: 0 <= j < leafNodeCount ==>
                leafIndex[j] == if j in OwnRefreshed(n, hasDirt, old(branchLengths[..]), nodeCount, isRoot)
                                then 1 - old(leafIndex[j]) else old(leafIndex[j])
      ensures ScalesKeptOutside(OwnRefreshed(n, hasDirt, old(branchLengths[..]), nodeCount, isRoot))
      ensures n.nr in OwnRefreshed(n, hasDirt, old(branchLengths[..]), nodeCount, isRoot) ==>
                LeafScaleFresh(n, categoryRates)
      ensures forall m :: old(LeafScaleFresh(m, categoryRates)) &&
                          m.nr !in OwnRefreshed(n, hasDirt, old(branchLengths[..]), nodeCount, isRoot) ==>
                LeafScaleFresh(m, categoryRates)
    {
      ghost var c0 := branchLengths[..];
      var update0 := TraverseHaplo(n);
      ghost var c1 := branchLengths[..];
      assert c1[n.nr] == c0[n.nr];
      var refreshed;
      update, refreshed := TraverseBranch(n, isRoot, update0, categoryRates);
      assert refreshed == BranchRefreshed(n, hasDirt, c0, nodeCount, isRoot);
      assert OwnRefreshed(n, hasDirt, c0, nodeCount, isRoot) == if n.Leaf? && refreshed then {n.nr} else {};
    }

    /**
     * traverse(n): the node's own step, then the left and the right subtree;
     * the result is the node's status or'ed with its children's. Exactly the
     * refreshed leaves switch buffers, and only their new buffers change.
     */
    method Traverse(n: TNode, isRoot: bool, categoryRates: seq<real>) returns (status: Dirt)
      requires Valid() && SlotsIn(n, nodeCount, branchLengths.Length) && DistinctSlots(n, nodeCount)
      requires LeafNrsBelow(n, leafNodeCount) && |categoryRates| == lay.categories
      modifies branchLengths, logProbabilities, leafIndex, leafLogScaleFactors
      decreases n, 1
      ensures Valid()
      ensures status == Status(n, hasDirt, old(branchLengths[..]), nodeCount, isRoot)
      ensures branchLengths[..] == CacheAfter(n, hasDirt, old(branchLengths[..]), nodeCount, isRoot)
      ensures forall j :: 0 <= j < leafNodeCount ==>
                leafIndex[j] == if j in RefreshedLeaves(n, hasDirt, old(branchLengths[..]), nodeCount, isRoot)
                                then 1 - old(leafIndex[j]) else old(leafIndex[j])
      ensures ScalesKeptOutside(RefreshedLeaves(n, hasDirt, old(branchLengths[..]), nodeCount, isRoot))
      ensures forall m :: LeafIn(m, n) && m.nr in RefreshedLeaves(n, hasDirt, old(branchLengths[..]), nodeCount, isRoot) ==>
                LeafScaleFresh(m, categoryRates)
      ensures forall m :: old(LeafScaleFresh(m, categoryRates)) &&
                          m.nr !in RefreshedLeaves(n, hasDirt, old(branchLengths[..]), nodeCount, isRoot) ==>
                LeafScaleFresh(m, categoryRates)
    {
      status := TraverseOwn(n, isRoot, categoryRates);
      if n.Internal? {
        var update1, update2 := TraverseChildren(n, categoryRates);
        if update1 != CLEAN || update2 != CLEAN || status != CLEAN {
          status := status | update1 | update2;
        }
      }
    }

    /**
     * The children of an internal node in traverse: the left subtree, then
     * the right one, each seeing the cache the previous step left.
     */
    method TraverseChildren(n: TNode, categoryRates: seq<real>) returns (update1: Dirt, update2: Dirt)
      requires Valid() && n.Internal? && SlotsIn(n, nodeCount, branchLengths.Length) && DistinctSlots(n, nodeCount)
      requires LeafNrsBelow(n, leafNodeCount) && |categoryRates| == lay.categories
      modifies branchLengths, logProbabilities, leafIndex, leafLogScaleFactors
      decreases n, 0
      ensures Valid()
      ensures update1 == Status(n.left, hasDirt, old(branchLengths[..]), nodeCount, false)
      ensures update2 == Status(n.right, hasDirt, CacheAfter(n.left, hasDirt, old(branchLengths[..]), nodeCount, false),
                                nodeCount, false)
      ensures branchLengths[..] == CacheAfter(n.right, hasDirt, CacheAfter(n.left, hasDirt, old(branchLengths[..]), nodeCount, false),
                                              nodeCount, false)
      ensures forall j :: 0 <= j < leafNodeCount ==>
                leafIndex[j] == if j in ChildrenRefreshed(n, old(branchLengths[..])) then 1 - old(leafIndex[j]) else old(leafIndex[j])
      ensures ScalesKeptOutside(ChildrenRefreshed(n, old(branchLengths[..])))
      ensures forall m :: LeafIn(m, n) && m.nr in ChildrenRefreshed(n, old(branchLengths[..])) ==>
                LeafScaleFresh(m, categoryRates)
      ensures forall m :: old(LeafScaleFresh(m, categoryRates)) && m.nr !in ChildrenRefreshed(n, old(branchLengths[..])) ==>
                LeafScaleFresh(m, categoryRates)
    {
      ghost var c1 := branchLengths[..];
      update1 := Traverse(n.left, false, categoryRates);
      ghost var c2 := branchLengths[..];
      update2 := Traverse(n.right, false, categoryRates);
      ghost var R1 := RefreshedLeaves(n.left, hasDirt, c1, nodeCount, false);
      ghost var R2 := RefreshedLeaves(n.right, hasDirt, c2, nodeCount, false);
      forall j | j in R1
        ensures j !in R2 && j < leafNodeCount
      {
        RefreshedLeavesOfSubtree(n.left, hasDirt, c1, nodeCount, false, leafNodeCount, j);
        if j in R2 {
          RefreshedLeavesOfSubtree(n.right, hasDirt, c2, nodeCount, false, leafNodeCount, j);
        }
      }
      forall m | LeafIn(m, n.left) && m.nr in R1 + R2
        ensures LeafScaleFresh(m, categoryRates)
      {
        LeafInSlots(m, n.left, nodeCount);
        if m.nr in R2 {
          RefreshedLeavesOfSubtree(n.right, hasDirt, c2, nodeCount, false, leafNodeCount, m.nr);
        }
      }
      forall m | LeafIn(m, n.right) && m.nr in R1 + R2
        ensures LeafScaleFresh(m, categoryRates)
      {
        if m.nr in R1 {
          LeafInSlots(m, n.right, nodeCount);
          RefreshedLeavesOfSubtree(n.left, hasDirt, c1, nodeCount, false, leafNodeCount, m.nr);
        }
      }
    }

    /** The leaves the two subtrees of n refresh, each starting from the cache the previous step left. */
    ghost function ChildrenRefreshed(n: TNode, cache: seq<real>): set<nat>
      requires n.Internal? && SlotsIn(n, nodeCount, |cache|)
      reads this`hasDirt
    {
      RefreshedLeaves(n.left, hasDirt, cache, nodeCount, false) +
      RefreshedLeaves(n.right, hasDirt, CacheAfter(n.left, hasDirt, cache, nodeCount, false), nodeCount, false)
    }

    // -------------------------------------------------------------------
    // requiresRecalculation, store, restore
    // -------------------------------------------------------------------

    /**
     * requiresRecalculation: hasDirt becomes FILTHY for a changed alignment,
     * DIRTY for a changed site model, CLEAN otherwise; the answer is whether
     * anything the likelihood depends on changed.
     */
    method RequiresRecalculation(alignmentDirty: bool, siteModelDirty: bool, branchRateDirty: bool, treeDirty: bool)
      returns (r: bool)
      modifies this`hasDirt
      ensures hasDirt == if alignmentDirty then FILTHY else if siteModelDirty then DIRTY else CLEAN
      ensures r == (alignmentDirty || siteModelDirty || branchRateDirty || treeDirty)
    {
      hasDirt := CLEAN;
      if alignmentDirty {
        hasDirt := FILTHY;
        return true;
      }
      if siteModelDirty {
        hasDirt := DIRTY;
        return true;
      }
      if branchRateDirty {
        return true;
      }
      return treeDirty;
    }

    /** System.arraycopy of a whole array of reals. */
    method CopyReals(src: array<real>, dst: array<real>)
      requires src.Length == dst.Length && src != dst
      modifies dst
      ensures dst[..] == src[..]
    {
      forall i | 0 <= i < dst.Length {
        dst[i] := src[i];
      }
    }

    /** System.arraycopy of a whole array of ints. */
    method CopyInts(src: array<int>, dst: array<int>)
      requires src.Length == dst.Length && src != dst
      modifies dst
      ensures dst[..] == src[..]
    {
      forall i | 0 <= i < dst.Length {
        dst[i] := src[i];
      }
    }

    /** store: the stored copies of the branch lengths, accumulated scales, leaf selectors and rates become the current ones. */
    method Store()
      requires Valid()
      modifies storedBranchLengths, storedAccumulatedLogLeafScaleFactors, storedLeafIndex, storedRates
      ensures Valid()
      ensures storedBranchLengths[..] == branchLengths[..]
      ensures storedAccumulatedLogLeafScaleFactors[..] == accumulatedLogLeafScaleFactors[..]
      ensures storedLeafIndex[..] == leafIndex[..]
      ensures storedRates[..] == rates[..]
    {
      CopyReals(branchLengths, storedBranchLengths);
      CopyReals(accumulatedLogLeafScaleFactors, storedAccumulatedLogLeafScaleFactors);
      CopyInts(leafIndex, storedLeafIndex);
      CopyReals(rates, storedRates);
    }

    /** restore: each current array and its stored copy swap places; no entry is copied. */
    method Restore()
      requires Valid()
      modifies this`branchLengths, this`storedBranchLengths, this`accumulatedLogLeafScaleFactors,
               this`storedAccumulatedLogLeafScaleFactors, this`rates, this`storedRates, this`leafIndex, this`storedLeafIndex
      ensures Valid()
      ensures branchLengths == old(storedBranchLengths) && storedBranchLengths == old(branchLengths)
      ensures accumulatedLogLeafScaleFactors == old(storedAccumulatedLogLeafScaleFactors)
      ensures storedAccumulatedLogLeafScaleFactors == old(accumulatedLogLeafScaleFactors)
      ensures rates == old(storedRates) && storedRates == old(rates)
      ensures leafIndex == old(storedLeafIndex) && storedLeafIndex == old(leafIndex)
    {
      branchLengths, storedBranchLengths := storedBranchLengths, branchLengths;
      accumulatedLogLeafScaleFactors, storedAccumulatedLogLeafScaleFactors :=
        storedAccumulatedLogLeafScaleFactors, accumulatedLogLeafScaleFactors;
      rates, storedRates := storedRates, rates;
      leafIndex, storedLeafIndex := storedLeafIndex, leafIndex;
    }

    /**
     * A rejected proposal: store, traverse the proposed tree, restore. The
     * branch lengths, the leaf selectors and the rates are back as they were,
     * and every scale buffer the selectors now point to was never written:
     * traverse only writes the buffers it switches to.
     */
    method RejectedProposal(n: TNode, categoryRates: seq<real>) returns (status: Dirt)
      requires Valid() && SlotsIn(n, nodeCount, branchLengths.Length) && DistinctSlots(n, nodeCount)
      requires LeafNrsBelow(n, leafNodeCount) && |categoryRates| == lay.categories
      modifies this`branchLengths, this`storedBranchLengths, this`accumulatedLogLeafScaleFactors,
               this`storedAccumulatedLogLeafScaleFactors, this`rates, this`storedRates, this`leafIndex, this`storedLeafIndex
      modifies branchLengths, storedBranchLengths, storedAccumulatedLogLeafScaleFactors, storedLeafIndex, storedRates,
               logProbabilities, leafIndex, leafLogScaleFactors
      ensures Valid()
      ensures status == Status(n, hasDirt, old(branchLengths[..]), nodeCount, true)
      ensures branchLengths[..] == old(branchLengths[..])
      ensures accumulatedLogLeafScaleFactors[..] == old(accumulatedLogLeafScaleFactors[..])
      ensures rates[..] == old(rates[..])
      ensures leafIndex[..] == old(leafIndex[..])
      ensures forall j, w :: 0 <= j < leafNodeCount && 0 <= w < lay.ScaleLength() ==>
                leafLogScaleFactors[leafIndex[j], j, w] == old(leafLogScaleFactors[leafIndex[j], j, w])
    {
      Store();
      ghost var selectors := leafIndex[..];
      status := Traverse(n, true, categoryRates);
      assert forall j, w :: 0 <= j < leafNodeCount && 0 <= w < lay.ScaleLength() ==>
               leafLogScaleFactors[selectors[j], j, w] == old(leafLogScaleFactors[selectors[j], j, w]);
      Restore();
    }

    /**
     * A rejected proposal whose first evaluation underflowed, as written:
     * store, traverse the proposed tree, the rescale traversal, restore. The
     * selectors are back as they were, but every leaf the first traverse
     * refreshed now selects a buffer holding the proposed tree's entries,
     * while the restored cache holds the old branch times.
     */
    method RescaledRejectionAsWritten(root: TNode, categoryRates: seq<real>) returns (ghost refreshed: set<nat>)
      requires Valid() && SlotsIn(root, nodeCount, branchLengths.Length) && DistinctSlots(root, nodeCount)
      requires LeafNrsBelow(root, leafNodeCount) && |categoryRates| == lay.categories
      modifies this`branchLengths, this`storedBranchLengths, this`accumulatedLogLeafScaleFactors,
               this`storedAccumulatedLogLeafScaleFactors, this`rates, this`storedRates, this`leafIndex, this`storedLeafIndex,
               this`hasDirt, this`nScale, this`fScale
      modifies branchLengths, storedBranchLengths, storedAccumulatedLogLeafScaleFactors, storedLeafIndex, storedRates,
               logProbabilities, leafIndex, leafLogScaleFactors
      ensures Valid()
      ensures refreshed == RefreshedLeaves(root, old(hasDirt), old(branchLengths[..]), nodeCount, true)
      ensures branchLengths[..] == old(branchLengths[..])
      ensures rates[..] == old(rates[..])
      ensures leafIndex[..] == old(leafIndex[..])
      ensures forall m :: LeafIn(m, root) && m.nr in refreshed ==> LeafScaleFresh(m, categoryRates)
    {
      Store();
      var status;
      status, refreshed := TraverseRoot(root, categoryRates);
      RescaleTraversalAsWritten(root, categoryRates);
      forall m | LeafIn(m, root) && m.nr in refreshed
        ensures leafIndex[m.nr] == storedLeafIndex[m.nr]
      {
        LeafNrOf(m, root);
      }
      Restore();
    }

    /**
     * The same rejected proposal with the corrected rescale traversal: the
     * selectors are back as they were and every buffer they point to was
     * never written, as for a proposal without a rescale.
     */
    method RescaledRejection(root: TNode, categoryRates: seq<real>) returns (status: Dirt)
      requires Valid() && SlotsIn(root, nodeCount, branchLengths.Length) && DistinctSlots(root, nodeCount)
      requires LeafNrsBelow(root, leafNodeCount) && |categoryRates| == lay.categories
      modifies this`branchLengths, this`storedBranchLengths, this`accumulatedLogLeafScaleFactors,
               this`storedAccumulatedLogLeafScaleFactors, this`rates, this`storedRates, this`leafIndex, this`storedLeafIndex,
               this`hasDirt, this`nScale, this`fScale
      modifies branchLengths, storedBranchLengths, storedAccumulatedLogLeafScaleFactors, storedLeafIndex, storedRates,
               logProbabilities, leafIndex, leafLogScaleFactors
      ensures Valid()
      ensures status == Status(root, old(hasDirt), old(branchLengths[..]), nodeCount, true)
      ensures branchLengths[..] == old(branchLengths[..])
      ensures accumulatedLogLeafScaleFactors[..] == old(accumulatedLogLeafScaleFactors[..])
      ensures rates[..] == old(rates[..])
      ensures leafIndex[..] == old(leafIndex[..])
      ensures forall j, w :: 0 <= j < leafNodeCount && 0 <= w < lay.ScaleLength() ==>
                leafLogScaleFactors[leafIndex[j], j, w] == old(leafLogScaleFactors[leafIndex[j], j, w])
    {
      Store();
      status := RescaleAfterStore(root, categoryRates);
      Restore();
    }

    /** The first traverse and the corrected rescale traversal after a store write no buffer the stored selectors pick. */
    method RescaleAfterStore(root: TNode, categoryRates: seq<real>) returns (status: Dirt)
      requires Valid() && SlotsIn(root, nodeCount, branchLengths.Length) && DistinctSlots(root, nodeCount)
      requires LeafNrsBelow(root, leafNodeCount) && |categoryRates| == lay.categories
      requires storedLeafIndex[..] == leafIndex[..]
      modifies branchLengths, logProbabilities, leafIndex, leafLogScaleFactors, this`hasDirt, this`nScale, this`fScale
      ensures Valid()
      ensures status == Status(root, old(hasDirt), old(branchLengths[..]), nodeCount, true)
      ensures forall j, w :: 0 <= j < leafNodeCount && 0 <= w < lay.ScaleLength() ==>
                leafLogScaleFactors[storedLeafIndex[j], j, w] == old(leafLogScaleFactors[storedLeafIndex[j], j, w])
    {
      ghost var refreshed;
      status, refreshed := TraverseRoot(root, categoryRates);
      assert forall j, w :: 0 <= j < leafNodeCount && 0 <= w < lay.ScaleLength() ==>
               leafLogScaleFactors[storedLeafIndex[j], j, w] == old(leafLogScaleFactors[storedLeafIndex[j], j, w]);
      label traversed:
      RescaleTraversal(root, categoryRates);
      assert forall j, w :: 0 <= j < leafNodeCount && 0 <= w < lay.ScaleLength() ==>
               leafLogScaleFactors[storedLeafIndex[j], j, w] == old@traversed(leafLogScaleFactors[storedLeafIndex[j], j, w]);
    }

    // -------------------------------------------------------------------
    // calculateLogP
    // -------------------------------------------------------------------

    /** The root and the likelihood inputs one call of calculateLogP works on. */
    ghost predicate LogPInputs(root: TNode, site: SiteModel, pats: Patterns)
      reads this`branchLengths, this`storedBranchLengths, this`accumulatedLogLeafScaleFactors,
            this`storedAccumulatedLogLeafScaleFactors, this`rates, this`storedRates, this`leafIndex, this`storedLeafIndex,
            this`constantPattern, Footprint()
    {
      Valid() && ConstantPatternFits() &&
      SlotsIn(root, nodeCount, branchLengths.Length) && DistinctSlots(root, nodeCount) &&
      LeafNrsBelow(root, leafNodeCount) && |site.categoryRates| == lay.categories &&
      |site.proportions| == lay.categories &&
      |site.frequencies| == lay.states && PositiveWeights(pats.weights, lay.patterns)
    }

    /**
     * calculateLogP up to its calcLogP: the rates of no change are refreshed
     * when the site model changed, then traverse(root, true) runs. Exactly
     * the refreshed leaves switch buffers, their new buffers are fresh, no
     * other buffer entry changes, and the cache afterwards holds every
     * branch time.
     */
    method RefreshTree(root: TNode, siteModelDirty: bool, eigen: Eigen, categoryRates: seq<real>) returns (status: Dirt, ghost refreshed: set<nat>)
      requires Valid() && SlotsIn(root, nodeCount, branchLengths.Length) && DistinctSlots(root, nodeCount)
      requires LeafNrsBelow(root, leafNodeCount) && |categoryRates| == lay.categories
      requires |eigen.evec| == lay.states * lay.states && |eigen.eval| == lay.states && |eigen.ievc| == lay.states * lay.states
      modifies rates, branchLengths, logProbabilities, leafIndex, leafLogScaleFactors
      ensures Valid()
      ensures siteModelDirty ==>
                forall i :: 0 <= i < lay.states ==> rates[i] == NoChangeRate(eigen.evec, eigen.eval, eigen.ievc, lay.states, i)
      ensures !siteModelDirty ==> unchanged(rates)
      ensures status == Status(root, hasDirt, old(branchLengths[..]), nodeCount, true)
      ensures refreshed == RefreshedLeaves(root, hasDirt, old(branchLengths[..]), nodeCount, true)
      ensures branchLengths[..] == CacheAfter(root, hasDirt, old(branchLengths[..]), nodeCount, true)
      ensures Consistent(root, branchLengths[..], nodeCount, true)
      ensures leafIndex[..] == Flipped(old(leafIndex[..]), refreshed)
      ensures ScalesKeptOutside(refreshed)
      ensures LeavesFresh(root, refreshed, categoryRates)
      ensures hasDirt != CLEAN ==> AllLeavesFresh(root, categoryRates)
      ensures old(ScalesMatchCache(root, categoryRates)) && (siteModelDirty ==> hasDirt != CLEAN) ==>
                AllLeavesFresh(root, categoryRates)
      ensures old(leafIndex[..] == storedLeafIndex[..]) ==> FreshWhereUnstored(root, categoryRates)
    {
      if siteModelDirty {
        GetNoChangeRates(rates, eigen);
      }
      ghost var matched := !siteModelDirty && ScalesMatchCache(root, categoryRates);
      if matched {
        UnrefreshedLeavesFresh(root, hasDirt, categoryRates);
      }
      status, refreshed := TraverseRoot(root, categoryRates);
      if hasDirt != CLEAN {
        DirtyRefreshesEveryLeaf(root, hasDirt, old(branchLengths[..]), nodeCount, true);
        EveryLeafRefreshed(root, refreshed, categoryRates);
      }
      if old(leafIndex[..] == storedLeafIndex[..]) {
        FreshWhereFlipped(root, refreshed, old(leafIndex[..]), categoryRates);
      }
    }

    /**
     * traverse(root) as calculateLogP calls it: exactly the refreshed leaves
     * switch buffers, their new buffers are fresh, no other buffer entry
     * changes, and the cache afterwards holds every branch time.
     */
    method TraverseRoot(root: TNode, categoryRates: seq<real>) returns (status: Dirt, ghost refreshed: set<nat>)
      requires Valid() && SlotsIn(root, nodeCount, branchLengths.Length) && DistinctSlots(root, nodeCount)
      requires LeafNrsBelow(root, leafNodeCount) && |categoryRates| == lay.categories
      modifies branchLengths, logProbabilities, leafIndex, leafLogScaleFactors
      ensures Valid()
      ensures status == Status(root, hasDirt, old(branchLengths[..]), nodeCount, true)
      ensures refreshed == RefreshedLeaves(root, hasDirt, old(branchLengths[..]), nodeCount, true)
      ensures branchLengths[..] == CacheAfter(root, hasDirt, old(branchLengths[..]), nodeCount, true)
      ensures Consistent(root, branchLengths[..], nodeCount, true)
      ensures leafIndex[..] == Flipped(old(leafIndex[..]), refreshed)
      ensures ScalesKeptOutside(refreshed)
      ensures LeavesFresh(root, refreshed, categoryRates)
      ensures forall m :: old(LeafScaleFresh(m, categoryRates)) && m.nr !in refreshed ==> LeafScaleFresh(m, categoryRates)
    {
      TraversalMakesConsistent(root, hasDirt, branchLengths[..], nodeCount, true);
      refreshed := RefreshedLeaves(root, hasDirt, old(branchLengths[..]), nodeCount, true);
      status := Traverse(root, true, categoryRates);
    }

    /**
     * The first part of calculateLogP: refresh the rates of no change when
     * the site model changed, traverse the tree, and recompute logP unless
     * the traversal came back CLEAN. failed: the core raised
     * ArithmeticException while logP was being recomputed.
     */
    method EvaluateOnce(root: TNode, siteModelDirty: bool, eigen: Eigen, site: SiteModel, pats: Patterns,
                        exp: real -> real, log: real -> Ext, core: CoreView, arithmeticFailure: bool)
      returns (failed: bool, ghost status: Dirt, ghost refreshed: set<nat>)
      requires LogPInputs(root, site, pats) && |core.rawRootPartials| == lay.categories * lay.Block()
      requires |eigen.evec| == lay.states * lay.states && |eigen.eval| == lay.states && |eigen.ievc| == lay.states * lay.states
      modifies rates, branchLengths, logProbabilities, leafIndex, leafLogScaleFactors,
               accumulatedLogLeafScaleFactors, rootPartials, patternLogLikelihoods, this`logP, this`proportionInvariant
      ensures LogPInputs(root, site, pats)
      ensures status == Status(root, hasDirt, old(branchLengths[..]), nodeCount, true)
      ensures refreshed == RefreshedLeaves(root, hasDirt, old(branchLengths[..]), nodeCount, true)
      ensures (failed <==> status != CLEAN && arithmeticFailure) &&
              (status == CLEAN ==> logP == old(logP)) &&
              (status != CLEAN && !failed ==> LogPComputed(site, core, pats, exp, log)) &&
              (status != CLEAN && !failed ==> Selectors(leafIndex[..]) && logP == LogPWith(leafIndex[..], site, core, pats, exp, log)) &&
              proportionInvariant == if status != CLEAN && !failed && constantPattern.Some? then site.proportionInvariant
                                     else old(proportionInvariant)
      ensures siteModelDirty ==>
                forall i :: 0 <= i < lay.states ==> rates[i] == NoChangeRate(eigen.evec, eigen.eval, eigen.ievc, lay.states, i)
      ensures !siteModelDirty ==> unchanged(rates)
      ensures branchLengths[..] == CacheAfter(root, hasDirt, old(branchLengths[..]), nodeCount, true)
      ensures leafIndex[..] == Flipped(old(leafIndex[..]), refreshed)
      ensures ScalesKeptOutside(refreshed)
      ensures LeavesFresh(root, refreshed, site.categoryRates)
      ensures Consistent(root, branchLengths[..], nodeCount, true)
      ensures hasDirt != CLEAN ==> AllLeavesFresh(root, site.categoryRates)
      ensures old(ScalesMatchCache(root, site.categoryRates)) && (siteModelDirty ==> hasDirt != CLEAN) ==>
                AllLeavesFresh(root, site.categoryRates)
    {
      var traversed;
      traversed, refreshed := RefreshTree(root, siteModelDirty, eigen, site.categoryRates);
      status := traversed;
      failed := RecomputeUnlessClean(traversed, site, core, pats, exp, log, arithmeticFailure);
    }

    /**
     * The calcLogP step of calculateLogP: skipped after a CLEAN traversal,
     * cut short by an ArithmeticException of the core, otherwise run.
     */
    method RecomputeUnlessClean(status: Dirt, site: SiteModel, core: CoreView, pats: Patterns,
                                exp: real -> real, log: real -> Ext, arithmeticFailure: bool)
      returns (failed: bool)
      requires Valid() && ConstantPatternFits()
      requires |core.rawRootPartials| == lay.categories * lay.Block() && |site.proportions| == lay.categories
      requires |site.frequencies| == lay.states && PositiveWeights(pats.weights, lay.patterns)
      modifies accumulatedLogLeafScaleFactors, rootPartials, patternLogLikelihoods, this`logP, this`proportionInvariant
      ensures Valid()
      ensures (failed <==> status != CLEAN && arithmeticFailure) &&
              (status == CLEAN ==> logP == old(logP)) &&
              (status != CLEAN && !failed ==> LogPComputed(site, core, pats, exp, log)) &&
              (status != CLEAN && !failed ==> Selectors(leafIndex[..]) && logP == LogPWith(leafIndex[..], site, core, pats, exp, log)) &&
              proportionInvariant == if status != CLEAN && !failed && constantPattern.Some? then site.proportionInvariant
                                     else old(proportionInvariant)
    {
      failed := false;
      if status != CLEAN {
        if arithmeticFailure {
          return true;
        }
        RecomputeLogP(site, core, pats, exp, log);
      }
    }

    /**
     * The rescaling branch of calculateLogP: fScale grows by 1%, the whole
     * tree is marked FILTHY and traversed again, and logP is recomputed from
     * what the rescaled core reports.
     */
    method Rescale(root: TNode, site: SiteModel, pats: Patterns, exp: real -> real, log: real -> Ext, core: CoreView)
      requires LogPInputs(root, site, pats) && |core.rawRootPartials| == lay.categories * lay.Block()
      modifies branchLengths, logProbabilities, leafIndex, leafLogScaleFactors,
               accumulatedLogLeafScaleFactors, rootPartials, patternLogLikelihoods,
               this`logP, this`proportionInvariant, this`nScale, this`fScale, this`hasDirt
      ensures LogPInputs(root, site, pats)
      ensures fScale == old(fScale) * 1.01 && nScale == 0 && hasDirt == FILTHY
      ensures LogPComputed(site, core, pats, exp, log)
      ensures proportionInvariant == if constantPattern.Some? then site.proportionInvariant else old(proportionInvariant)
      ensures branchLengths[..] == CacheAfter(root, FILTHY, old(branchLengths[..]), nodeCount, true)
      ensures leafIndex[..] == Flipped(old(storedLeafIndex[..]), LeafNrs(root))
      ensures ScalesKeptOutside(LeafNrs(root))
      ensures AllLeavesFresh(root, site.categoryRates)
      ensures Selectors(old(storedLeafIndex[..])) &&
              forall w :: 0 <= w < lay.ScaleLength() ==>
                SelectedScaleSum(old(storedLeafIndex[..]), w, leafNodeCount) == old(SelectedScaleSum(storedLeafIndex[..], w, leafNodeCount))
      ensures old(FreshWhereUnstored(root, site.categoryRates)) && Selectors(old(leafIndex[..])) ==>
                ScalesOf(old(leafIndex[..])) == old(ScalesOf(leafIndex[..]))
    {
      RescaleTraversal(root, site.categoryRates);
      CalcLogP(site, core, pats, exp, log);
    }

    /**
     * The rescaling branch of calculateLogP up to its calcLogP, with the leaf
     * selectors first reset to the stored ones, as likelihoodCore.unstore()
     * resets the core's own buffers. Every leaf of the tree then writes the
     * buffer the stored selectors do not pick, so the leaf-scale sums over
     * the stored selection stay as they were. So do those over the entry
     * selection, when every leaf where it differs from the stored one was
     * fresh: a buffer the two selections share is rewritten with the same
     * fresh entries.
     */
    method RescaleTraversal(root: TNode, categoryRates: seq<real>)
      requires Valid() && SlotsIn(root, nodeCount, branchLengths.Length) && DistinctSlots(root, nodeCount)
      requires LeafNrsBelow(root, leafNodeCount) && |categoryRates| == lay.categories
      modifies branchLengths, logProbabilities, leafIndex, leafLogScaleFactors, this`hasDirt, this`nScale, this`fScale
      ensures Valid() && hasDirt == FILTHY
      ensures fScale == old(fScale) * 1.01 && nScale == 0
      ensures branchLengths[..] == CacheAfter(root, FILTHY, old(branchLengths[..]), nodeCount, true)
      ensures leafIndex[..] == Flipped(old(storedLeafIndex[..]), LeafNrs(root))
      ensures ScalesKeptOutside(LeafNrs(root))
      ensures AllLeavesFresh(root, categoryRates)
      ensures Selectors(old(storedLeafIndex[..])) &&
              forall w :: 0 <= w < lay.ScaleLength() ==>
                SelectedScaleSum(old(storedLeafIndex[..]), w, leafNodeCount) == old(SelectedScaleSum(storedLeafIndex[..], w, leafNodeCount))
      ensures old(FreshWhereUnstored(root, categoryRates)) && Selectors(old(leafIndex[..])) ==>
                ScalesOf(old(leafIndex[..])) == old(ScalesOf(leafIndex[..]))
    {
      ghost var before := leafIndex[..];
      ghost var entries := seq(lay.ScaleLength(), w requires 0 <= w < lay.ScaleLength() reads leafLogScaleFactors => Picked(before, w));
      ghost var r := rates[..];
      ghost var freshBefore := FreshWhereUnstored(root, categoryRates) && Selectors(before);
      if freshBefore {
        FreshEntries(root, before, entries, r, categoryRates);
      }
      CopyInts(storedLeafIndex, leafIndex);
      RescaleTraversalAsWritten(root, categoryRates);
      if freshBefore {
        FreshSelectionKept(root, before, entries, r, categoryRates);
      }
    }
    /**
     * The rescaling branch of calculateLogP up to its calcLogP: the counter
     * restarts, the scaling factor grows by 1%, and the tree is traversed
     * with hasDirt FILTHY, which refreshes every one of its leaves. As
     * written, the leaf selectors are not reset first: a leaf the first
     * traversal switched switches back, and its new scale entries go to the
     * buffer the selectors held before that traversal.
     */
    method RescaleTraversalAsWritten(root: TNode, categoryRates: seq<real>)
      requires Valid() && SlotsIn(root, nodeCount, branchLengths.Length) && DistinctSlots(root, nodeCount)
      requires LeafNrsBelow(root, leafNodeCount) && |categoryRates| == lay.categories
      modifies branchLengths, logProbabilities, leafIndex, leafLogScaleFactors, this`hasDirt, this`nScale, this`fScale
      ensures Valid() && hasDirt == FILTHY
      ensures fScale == old(fScale) * 1.01 && nScale == 0
      ensures branchLengths[..] == CacheAfter(root, FILTHY, old(branchLengths[..]), nodeCount, true)
      ensures leafIndex[..] == Flipped(old(leafIndex[..]), LeafNrs(root))
      ensures ScalesKeptOutside(LeafNrs(root))
      ensures AllLeavesFresh(root, categoryRates)
      ensures Selectors(old(leafIndex[..])) &&
              forall w :: 0 <= w < lay.ScaleLength() ==>
                SelectedScaleSum(old(leafIndex[..]), w, leafNodeCount) == old(SelectedScaleSum(leafIndex[..], w, leafNodeCount))
    {
      nScale := 0;
      fScale := fScale * 1.01;
      hasDirt := FILTHY;
      TraverseFilthy(root, categoryRates);
    }

    /**
     * traverse(root, true) with hasDirt FILTHY: every leaf is refreshed and
     * switches buffers, so the buffers selected before are left as they were.
     */
    method TraverseFilthy(root: TNode, categoryRates: seq<real>)
      requires Valid() && SlotsIn(root, nodeCount, branchLengths.Length) && DistinctSlots(root, nodeCount)
      requires LeafNrsBelow(root, leafNodeCount) && |categoryRates| == lay.categories && hasDirt == FILTHY
      modifies branchLengths, logProbabilities, leafIndex, leafLogScaleFactors
      ensures Valid()
      ensures branchLengths[..] == CacheAfter(root, FILTHY, old(branchLengths[..]), nodeCount, true)
      ensures leafIndex[..] == Flipped(old(leafIndex[..]), LeafNrs(root))
      ensures ScalesKeptOutside(LeafNrs(root))
      ensures AllLeavesFresh(root, categoryRates)
      ensures Selectors(old(leafIndex[..])) &&
              forall w :: 0 <= w < lay.ScaleLength() ==>
                SelectedScaleSum(old(leafIndex[..]), w, leafNodeCount) == old(SelectedScaleSum(leafIndex[..], w, leafNodeCount))
    {
      DirtyRefreshesEveryLeaf(root, FILTHY, branchLengths[..], nodeCount, true);
      var status := Traverse(root, true, categoryRates);
      forall m | LeafIn(m, root)
        ensures LeafScaleFresh(m, categoryRates)
      {
        LeafNrOf(m, root);
      }
      // the buffers selected before the traversal are the ones it did not write
      ghost var before := old(leafIndex[..]);
      forall w | 0 <= w < lay.ScaleLength()
        ensures Picked(before, w) == old(Picked(before, w))
      {
        forall j | 0 <= j < leafNodeCount
          ensures Picked(before, w)[j] == old(Picked(before, w))[j]
        {
          assert !(j in LeafNrs(root) && leafIndex[j] == before[j]);
        }
      }
    }

    /**
     * calculateLogP without BEAGLE: evaluate once; then, when logP is
     * negative infinity, scaling is not switched off, fScale is still below
     * 10 and the evaluation counter has not passed X, rescale and evaluate
     * again.
     *
     * The likelihood core is outside the model: first and retry are what it
     * reports after the first and the second traversal, and
     * arithmeticFailure says that it raised ArithmeticException during the
     * first traversal and recomputation, in which case the result is
     * negative infinity. The retry is not guarded by that catch; an exception
     * there would leave the method, and the model has no such path.
     *
     * firstLogP is logP after the first evaluation and firstSelectors the
     * leaf selectors it left. A rescale first resets the selectors to the
     * stored ones (the correction described at RescaleTraversal), so
     * afterwards the active selectors are the stored ones with every leaf of
     * the tree flipped, and the first evaluation's buffers may be rewritten.
     */
    method CalculateLogP(root: TNode, siteModelDirty: bool, eigen: Eigen, site: SiteModel, pats: Patterns,
                         exp: real -> real, log: real -> Ext, first: CoreView, retry: CoreView,
                         arithmeticFailure: bool, useScaling: bool, scalingNone: bool)
      returns (result: Ext, rescaled: bool, ghost firstStatus: Dirt, ghost refreshed: set<nat>,
               ghost firstLogP: Ext, ghost firstSelectors: seq<int>)
      requires LogPInputs(root, site, pats) && |first.rawRootPartials| == lay.categories * lay.Block()
      requires |retry.rawRootPartials| == lay.categories * lay.Block()
      requires |eigen.evec| == lay.states * lay.states && |eigen.eval| == lay.states && |eigen.ievc| == lay.states * lay.states
      modifies rates, branchLengths, logProbabilities, leafIndex, leafLogScaleFactors,
               accumulatedLogLeafScaleFactors, rootPartials, patternLogLikelihoods,
               this`logP, this`proportionInvariant, this`nScale, this`fScale, this`hasDirt
      ensures Valid() && Selectors(firstSelectors)
      // the first evaluation
      ensures firstStatus == Status(root, old(hasDirt), old(branchLengths[..]), nodeCount, true)
      ensures refreshed == RefreshedLeaves(root, old(hasDirt), old(branchLengths[..]), nodeCount, true)
      ensures (firstStatus != CLEAN && arithmeticFailure ==> result == NegInf && !rescaled && nScale == old(nScale)) &&
              (firstStatus == CLEAN ==> firstLogP == old(logP)) &&
              (firstStatus != CLEAN && !arithmeticFailure && !rescaled ==> firstLogP == LogPWith(firstSelectors, site, first, pats, exp, log))
      ensures firstSelectors == Flipped(old(leafIndex[..]), refreshed)
      ensures rescaled <==> !(firstStatus != CLEAN && arithmeticFailure) &&
                            firstLogP.NegInf? && old(fScale) < 10.0 && !scalingNone &&
                            !(useScaling && old(nScale) + 1 > ScalingSwitchCount)
      // no rescale: the first evaluation stands
      ensures !rescaled && !(firstStatus != CLEAN && arithmeticFailure) ==>
                result == firstLogP && logP == firstLogP && nScale == old(nScale) + 1
      ensures !rescaled ==> fScale == old(fScale) && hasDirt == old(hasDirt) && leafIndex[..] == firstSelectors
      ensures rescaled ==>
                result == logP && fScale == old(fScale) * 1.01 && nScale == 0 && hasDirt == FILTHY &&
                LogPComputed(site, retry, pats, exp, log) && AllLeavesFresh(root, site.categoryRates)
      ensures rescaled ==> leafIndex[..] == Flipped(old(storedLeafIndex[..]), LeafNrs(root))
    {
      var failed;
      failed, firstStatus, refreshed := EvaluateOnce(root, siteModelDirty, eigen, site, pats, exp, log, first, arithmeticFailure);
      firstSelectors := leafIndex[..];
      firstLogP := logP;
      result, rescaled := RescaleIfNeeded(root, site, pats, exp, log, retry, first, failed, useScaling, scalingNone);
    }

    /**
     * The part of calculateLogP after the first evaluation: m_nScale goes up
     * by one; when logP is negative infinity, scaling is not switched off,
     * fScale is below 10 and the counter has not passed X, rescale and
     * evaluate again (which sets the counter to 0), otherwise logP stands.
     */
    method RescaleIfNeeded(root: TNode, site: SiteModel, pats: Patterns, exp: real -> real, log: real -> Ext,
                           retry: CoreView, ghost first: CoreView, failed: bool, useScaling: bool, scalingNone: bool)
      returns (result: Ext, rescaled: bool)
      requires LogPInputs(root, site, pats) && |retry.rawRootPartials| == lay.categories * lay.Block()
      modifies branchLengths, logProbabilities, leafIndex, leafLogScaleFactors,
               accumulatedLogLeafScaleFactors, rootPartials, patternLogLikelihoods,
               this`logP, this`proportionInvariant, this`nScale, this`fScale, this`hasDirt
      ensures Valid()
      ensures rescaled <==> !failed && old(logP).NegInf? && old(fScale) < 10.0 && !scalingNone &&
                            !(useScaling && old(nScale) + 1 > ScalingSwitchCount)
      ensures failed ==> result == NegInf && nScale == old(nScale)
      ensures !rescaled && !failed ==> result == old(logP) && nScale == old(nScale) + 1
      ensures !rescaled ==>
                logP == old(logP) && fScale == old(fScale) && hasDirt == old(hasDirt) &&
                proportionInvariant == old(proportionInvariant)
      ensures !rescaled ==> unchanged(branchLengths, leafIndex, leafLogScaleFactors)
      ensures rescaled ==>
                result == logP && fScale == old(fScale) * 1.01 && nScale == 0 && hasDirt == FILTHY &&
                LogPComputed(site, retry, pats, exp, log) && AllLeavesFresh(root, site.categoryRates) &&
                proportionInvariant == if constantPattern.Some? then site.proportionInvariant else old(proportionInvariant)
      ensures rescaled ==> branchLengths[..] == CacheAfter(root, FILTHY, old(branchLengths[..]), nodeCount, true) &&
                           Consistent(root, branchLengths[..], nodeCount, true)
      ensures rescaled ==> leafIndex[..] == Flipped(old(storedLeafIndex[..]), LeafNrs(root))
      ensures Selectors(old(storedLeafIndex[..])) ==> ScalesOf(old(storedLeafIndex[..])) == old(ScalesOf(storedLeafIndex[..]))
      ensures Selectors(old(storedLeafIndex[..])) && (constantPattern.Some? ==> old(proportionInvariant) == site.proportionInvariant) ==>
                LogPWith(old(storedLeafIndex[..]), site, first, pats, exp, log) == old(LogPWith(storedLeafIndex[..], site, first, pats, exp, log))
    {
      if failed {
        return NegInf, false;
      }
      var count := nScale + 1;
      rescaled := false;
      if (logP.Fin? && logP.v > 0.0) || (useScaling && count > ScalingSwitchCount) {
        // the source leaves this branch empty
      } else if logP.NegInf? && fScale < 10.0 && !scalingNone {
        RescaleAndRetry(root, site, pats, exp, log, retry, first);
        return logP, true;
      }
      nScale := count;
      result := logP;
    }

    /**
     * The rescaling branch of calculateLogP, in the terms of RescaleIfNeeded:
     * the retry's logP is computed over every leaf's other buffer, and the
     * buffers selected before, with what they determine, are left as they
     * were. So are those the entry selection picks, when every leaf where
     * it differs from the stored selection was fresh.
     */
    method RescaleAndRetry(root: TNode, site: SiteModel, pats: Patterns, exp: real -> real, log: real -> Ext,
                           retry: CoreView, ghost first: CoreView)
      requires LogPInputs(root, site, pats) && |retry.rawRootPartials| == lay.categories * lay.Block()
      modifies branchLengths, logProbabilities, leafIndex, leafLogScaleFactors,
               accumulatedLogLeafScaleFactors, rootPartials, patternLogLikelihoods,
               this`logP, this`proportionInvariant, this`nScale, this`fScale, this`hasDirt
      ensures Valid()
      ensures fScale == old(fScale) * 1.01 && nScale == 0 && hasDirt == FILTHY &&
              LogPComputed(site, retry, pats, exp, log) && AllLeavesFresh(root, site.categoryRates) &&
              proportionInvariant == if constantPattern.Some? then site.proportionInvariant else old(proportionInvariant)
      ensures branchLengths[..] == CacheAfter(root, FILTHY, old(branchLengths[..]), nodeCount, true) &&
              Consistent(root, branchLengths[..], nodeCount, true)
      ensures leafIndex[..] == Flipped(old(storedLeafIndex[..]), LeafNrs(root))
      ensures Selectors(old(storedLeafIndex[..])) ==> ScalesOf(old(storedLeafIndex[..])) == old(ScalesOf(storedLeafIndex[..]))
      ensures Selectors(old(storedLeafIndex[..])) && (constantPattern.Some? ==> old(proportionInvariant) == site.proportionInvariant) ==>
                LogPWith(old(storedLeafIndex[..]), site, first, pats, exp, log) == old(LogPWith(storedLeafIndex[..], site, first, pats, exp, log))
      ensures old(FreshWhereUnstored(root, site.categoryRates)) && Selectors(old(leafIndex[..])) ==>
                ScalesOf(old(leafIndex[..])) == old(ScalesOf(leafIndex[..]))
      ensures old(FreshWhereUnstored(root, site.categoryRates)) && Selectors(old(leafIndex[..])) &&
              (constantPattern.Some? ==> old(proportionInvariant) == site.proportionInvariant) ==>
                LogPWith(old(leafIndex[..]), site, first, pats, exp, log) == old(LogPWith(leafIndex[..], site, first, pats, exp, log))
    {
      TraversalMakesConsistent(root, FILTHY, branchLengths[..], nodeCount, true);
      Rescale(root, site, pats, exp, log, retry);
    }
  }

  /** X of calculateLogP: the evaluation count above which the (empty) switch-off branch is taken. */
  const ScalingSwitchCount: int := 100
}
