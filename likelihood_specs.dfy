/**
 * The value rules of the quasi-species tree likelihood
 * (piqmee.likelihood.QuasiSpeciesTreeLikelihood3) as pure functions: the
 * layouts of its flat buffers, what each loop computes into them, the
 * CLEAN/DIRTY/FILTHY status rules of traverse, and the taxon lookup.
 *
 * Doubles are exact reals. `exp` and the natural logarithm are parameters;
 * the logarithm returns an `Ext`, so log(0) can be negative infinity as in
 * Java.
 */
module LikelihoodSpecs {
  import opened Numeric
  import opened Outcomes

  /** Sizes of the flat buffers: P patterns, S states, C rate categories. */
  datatype Layout = Layout(patterns: nat, states: nat, categories: nat)
  {
    /** Length of a pattern-by-state block (m_fRootPartials), index k*S + i. */
    function Block(): nat { patterns * states }

    /** Length of a category-by-pattern vector (the leaf scales), index c*P + p. */
    function ScaleLength(): nat { categories * patterns }
  }

  // ---------------------------------------------------------------------
  // integratePartials
  // ---------------------------------------------------------------------

  /**
   * Which entry of accumulatedLogLeafScaleFactors corrects category l at
   * root-partial index u = k*S + i: the code reads entry u (ByPatternState);
   * the buffer holds category l, pattern k at entry l*P + k
   * (ByCategoryPattern).
   */
  datatype ScaleIndexing = ByPatternState | ByCategoryPattern

  function ScaleIndex(lay: Layout, u: nat, l: nat, ix: ScaleIndexing): nat
  {
    match ix
    case ByPatternState => u
    case ByCategoryPattern => l * lay.patterns + BlockOf(u, lay.states)
  }

  /** The block of length s that index u lies in (u / s for s > 0), counted by whole blocks. */
  function BlockOf(u: nat, s: nat): nat
  {
    if s == 0 || u < s then 0 else 1 + BlockOf(u - s, s)
  }

  /** Category l's contribution at root-partial index u: partial times proportion times exp(scale). */
  function CategoryTerm(lay: Layout, inP: seq<real>, prop: seq<real>, acc: seq<real>, exp: real -> real,
                        u: nat, l: nat, ix: ScaleIndexing): real
  {
    var v := l * lay.Block() + u;
    var s := ScaleIndex(lay, u, l, ix);
    if v < |inP| && l < |prop| && s < |acc| then inP[v] * prop[l] * exp(acc[s]) else 0.0
  }

  /** Categories 1 .. n-1 at index u, added in the order of the loop over l. */
  function LaterCategories(lay: Layout, inP: seq<real>, prop: seq<real>, acc: seq<real>, exp: real -> real,
                           u: nat, n: nat, ix: ScaleIndexing): real
  {
    if n <= 1 then 0.0
    else LaterCategories(lay, inP, prop, acc, exp, u, n - 1, ix) + CategoryTerm(lay, inP, prop, acc, exp, u, n - 1, ix)
  }

  /** Category 0's term at index u: no scale correction. */
  function FirstCategory(inP: seq<real>, prop: seq<real>, u: nat): real
  {
    if u < |inP| && 0 < |prop| then inP[u] * prop[0] else 0.0
  }

  /** Root partial u integrated over categories 0 .. n-1. */
  function IntegratedUpTo(lay: Layout, inP: seq<real>, prop: seq<real>, acc: seq<real>, exp: real -> real,
                          u: nat, n: nat, ix: ScaleIndexing): real
  {
    FirstCategory(inP, prop, u) + LaterCategories(lay, inP, prop, acc, exp, u, n, ix)
  }

  /** Root partial u integrated over all categories: category 0 uncorrected, the others scaled. */
  function Integrated(lay: Layout, inP: seq<real>, prop: seq<real>, acc: seq<real>, exp: real -> real,
                      u: nat, ix: ScaleIndexing): real
  {
    IntegratedUpTo(lay, inP, prop, acc, exp, u, lay.categories, ix)
  }

  /** Integrating one more category adds that category's term. */
  lemma IntegratedUpToStep(lay: Layout, inP: seq<real>, prop: seq<real>, acc: seq<real>, exp: real -> real,
                           u: nat, l: nat, ix: ScaleIndexing)
    requires 1 <= l
    ensures IntegratedUpTo(lay, inP, prop, acc, exp, u, l + 1, ix) ==
            IntegratedUpTo(lay, inP, prop, acc, exp, u, l, ix) + CategoryTerm(lay, inP, prop, acc, exp, u, l, ix)
  {
  }

  /** Category l's term at index u, read from entry v = l*P*S + u of the raw partials. */
  lemma CategoryTermAt(lay: Layout, inP: seq<real>, prop: seq<real>, acc: seq<real>, exp: real -> real,
                       u: nat, v: nat, l: nat, ix: ScaleIndexing)
    requires 1 <= l < lay.categories && u < lay.Block() && v == l * lay.Block() + u
    requires |inP| == lay.categories * lay.Block() && |prop| == lay.categories
    requires ScaleIndex(lay, u, l, ix) < |acc|
    ensures v < |inP|
    ensures CategoryTerm(lay, inP, prop, acc, exp, u, l, ix) == inP[v] * prop[l] * exp(acc[ScaleIndex(lay, u, l, ix)])
  {
    BlockBound(l, lay.categories, lay.Block());
  }

  lemma MulMonotone(a: nat, b: nat, c: nat)
    requires a <= b
    ensures a * c <= b * c
  {
  }

  /** Block k of n blocks of length s ends within n*s. */
  lemma BlockBound(k: nat, n: nat, s: nat)
    requires k < n
    ensures k * s + s <= n * s
  {
    MulMonotone(k + 1, n, s);
    assert (k + 1) * s == k * s + s;
  }

  /** Block i+1 starts s entries after block i. */
  lemma NextBlock(i: nat, s: nat)
    ensures (i + 1) * s == i * s + s
  {
  }

  /** Entry i of block k: block k is (k*s+i) / s and i is the remainder. */
  lemma DivOfLayout(k: nat, s: nat, i: nat)
    requires i < s
    ensures (k * s + i) / s == k && (k * s + i) % s == i
  {
    var n := k * s + i;
    var q := n / s;
    assert n == q * s + n % s && 0 <= n % s < s;
    if q > k {
      MulMonotone(k + 1, q, s);
    } else if q < k {
      MulMonotone(q + 1, k, s);
    }
  }

  /** Entry i of block k lies in block k. */
  lemma {:induction false} BlockOfLayout(k: nat, s: nat, i: nat)
    requires i < s
    ensures BlockOf(k * s + i, s) == k
  {
    if k > 0 {
      NextBlock(k - 1, s);
      BlockOfLayout(k - 1, s, i);
    }
  }

  /** An index below n*s lies in one of the first n blocks. */
  lemma {:induction false} BlockOfBound(u: nat, n: nat, s: nat)
    requires u < n * s
    ensures BlockOf(u, s) < n
  {
    if u >= s {
      NextBlock(n - 1, s);
      BlockOfBound(u - s, n - 1, s);
    }
  }

  /**
   * The category-pattern reading takes, at index k*S + i and category l, the
   * entry l*P + k that calculateLogLeafScale fills for category l and
   * pattern k.
   */
  lemma ByCategoryReadsPattern(lay: Layout, k: nat, i: nat, l: nat)
    requires i < lay.states
    ensures ScaleIndex(lay, k * lay.states + i, l, ByCategoryPattern) == l * lay.patterns + k
  {
    BlockOfLayout(k, lay.states, i);
  }

  /** The category-pattern reading never leaves the scale buffer. */
  lemma ByCategoryStaysInBuffer(lay: Layout, u: nat, l: nat)
    requires u < lay.Block() && l < lay.categories
    ensures ScaleIndex(lay, u, l, ByCategoryPattern) < lay.ScaleLength()
  {
    BlockOfBound(u, lay.patterns, lay.states);
    BlockBound(l, lay.categories, lay.patterns);
  }

  /**
   * As written, the code reads entry k*S + i of a buffer of length C*P: with
   * one pattern, four states and two categories it reads entry 2 of a
   * two-entry buffer (pattern 0, state 2, category 1).
   */
  lemma ByPatternStateOverruns()
    ensures var lay := Layout(1, 4, 2);
            2 < lay.Block() && 1 < lay.categories &&
            ScaleIndex(lay, 2, 1, ByPatternState) >= lay.ScaleLength()
  {
  }

  /**
   * As written, the entry read does not depend on the category, so every
   * category l >= 1 at one root-partial index gets the same correction.
   */
  lemma ByPatternStateIgnoresCategory(lay: Layout, u: nat, l1: nat, l2: nat)
    ensures ScaleIndex(lay, u, l1, ByPatternState) == ScaleIndex(lay, u, l2, ByPatternState)
  {
  }

  /** How often x occurs in s. */
  function Occurrences(s: seq<nat>, x: nat): nat
  {
    if |s| == 0 then 0 else Occurrences(s[..|s| - 1], x) + (if s[|s| - 1] == x then 1 else 0)
  }

  /** Counting over one more element of s. */
  lemma OccurrencesStep(s: seq<nat>, i: nat, x: nat)
    requires i < |s|
    ensures Occurrences(s[..i + 1], x) == Occurrences(s[..i], x) + (if s[i] == x then 1 else 0)
  {
    assert s[..i + 1][..i] == s[..i];
  }

  /** after is start with proportionInvariant added once per occurrence of each index in cp. */
  predicate InvariantAdded(start: seq<real>, after: seq<real>, cp: seq<nat>, proportionInvariant: real)
  {
    |after| == |start| &&
    forall u :: 0 <= u < |start| ==> after[u] == start[u] + Occurrences(cp, u) as real * proportionInvariant
  }

  /** One more pass of the constant-pattern loop: entry cp[i] gains proportionInvariant. */
  lemma InvariantAddedStep(start: seq<real>, before: seq<real>, after: seq<real>, cp: seq<nat>, i: nat, p: real)
    requires i < |cp| && cp[i] < |before|
    requires InvariantAdded(start, before, cp[..i], p)
    requires after == before[cp[i] := before[cp[i]] + p]
    ensures InvariantAdded(start, after, cp[..i + 1], p)
  {
    forall u | 0 <= u < |start|
      ensures after[u] == start[u] + Occurrences(cp[..i + 1], u) as real * p
    {
      OccurrencesStep(cp, i, u);
      var o := Occurrences(cp[..i], u) as real;
      if cp[i] == u {
        assert (o + 1.0) * p == o * p + p;
      }
    }
  }

  /**
   * In the list 0, 1, ..., n-1 that calcConstantPatternIndices builds, every
   * root-partial index below n occurs exactly once, so each of those partials
   * gains the invariant proportion exactly once.
   */
  lemma {:induction false} IdentityListOccurrences(s: seq<nat>, x: nat)
    requires forall j :: 0 <= j < |s| ==> s[j] == j
    ensures Occurrences(s, x) == (if x < |s| then 1 else 0)
  {
    if |s| > 0 {
      var t := s[..|s| - 1];
      assert forall j :: 0 <= j < |t| ==> t[j] == j by {
        forall j | 0 <= j < |t| ensures t[j] == j {
          assert t[j] == s[j];
        }
      }
      IdentityListOccurrences(t, x);
    }
  }

  // ---------------------------------------------------------------------
  // The leaf log-scale buffers: calculateLogLeafScale and accumulateLogLeafScale
  // ---------------------------------------------------------------------

  /**
   * Entry w = c*S + j of logProbabilities for a leaf branch: the log
   * probability of no change in state j along the branch in category c,
   * time * (rate of category c * branch rate) * rates[j].
   */
  function LogNoChange(lay: Layout, time: real, branchRate: real, categoryRates: seq<real>, rates: seq<real>, w: nat): real
  {
    if lay.states == 0 then 0.0
    else
      var c := w / lay.states;
      var j := w % lay.states;
      if c < |categoryRates| && j < |rates| then time * (categoryRates[c] * branchRate) * rates[j] else 0.0
  }

  /** The whole logProbabilities vector of a leaf update, c*S + j for c < C, j < S. */
  function LogNoChangeVector(lay: Layout, time: real, branchRate: real, categoryRates: seq<real>, rates: seq<real>): (r: seq<real>)
    ensures |r| == lay.states * lay.categories
  {
    seq(lay.states * lay.categories, w requires 0 <= w => LogNoChange(lay, time, branchRate, categoryRates, rates, w))
  }

  /** The branch rate can be folded into the time: t = time*rate with rate 1 gives the same vector. */
  lemma FoldedBranchRate(lay: Layout, t: real, time: real, branchRate: real, categoryRates: seq<real>, rates: seq<real>)
    requires t == time * branchRate
    ensures LogNoChangeVector(lay, t, 1.0, categoryRates, rates) ==
            LogNoChangeVector(lay, time, branchRate, categoryRates, rates)
  {
    forall w | 0 <= w < lay.states * lay.categories
      ensures LogNoChange(lay, t, 1.0, categoryRates, rates, w) ==
              LogNoChange(lay, time, branchRate, categoryRates, rates, w)
    {
      if lay.states != 0 {
        var c := w / lay.states;
        var j := w % lay.states;
        if c < |categoryRates| && j < |rates| {
          assert (time * branchRate) * (categoryRates[c] * 1.0) * rates[j] == time * (categoryRates[c] * branchRate) * rates[j];
        }
      }
    }
  }

  /**
   * Entry w = c*P + p of a leaf's scale buffer: entry c*S + row[p] of
   * logProbabilities, for the leaf's state row[p] at pattern p.
   */
  function LeafScaleEntry(lay: Layout, logProb: seq<real>, row: seq<int>, w: nat): real
  {
    if lay.patterns == 0 then 0.0
    else
      var c := w / lay.patterns;
      var p := w % lay.patterns;
      if p < |row| && 0 <= row[p] && c * lay.states + row[p] < |logProb| then logProb[c * lay.states + row[p]] else 0.0
  }

  /**
   * A leaf's scale for category c and pattern p is the log probability that
   * its state at p does not change along its branch in category c.
   */
  lemma LeafScaleIsLogNoChange(lay: Layout, logProb: seq<real>, row: seq<int>, time: real, branchRate: real,
                               categoryRates: seq<real>, rates: seq<real>, c: nat, p: nat)
    requires |categoryRates| == lay.categories && |rates| == lay.states && |row| == lay.patterns
    requires c < lay.categories && p < lay.patterns && 0 <= row[p] < lay.states
    requires |logProb| == lay.states * lay.categories
    requires forall w :: 0 <= w < |logProb| ==> logProb[w] == LogNoChange(lay, time, branchRate, categoryRates, rates, w)
    ensures LeafScaleEntry(lay, logProb, row, c * lay.patterns + p) ==
            time * (categoryRates[c] * branchRate) * rates[row[p]]
  {
    DivOfLayout(c, lay.patterns, p);
    var x := c * lay.states + row[p];
    BlockBound(c, lay.categories, lay.states);
    assert lay.categories * lay.states == lay.states * lay.categories;
    DivOfLayout(c, lay.states, row[p]);
    assert logProb[x] == LogNoChange(lay, time, branchRate, categoryRates, rates, x);
  }

  // ---------------------------------------------------------------------
  // calculateLogLikelihoods and the weighted sum of calcLogP
  // ---------------------------------------------------------------------

  /** freqs[0]*partials[base] + ... + freqs[n-1]*partials[base+n-1], added left to right. */
  function FrequencyWeighted(partials: seq<real>, freqs: seq<real>, base: nat, n: nat): real
  {
    if n == 0 then 0.0
    else FrequencyWeighted(partials, freqs, base, n - 1) +
         (if n - 1 < |freqs| && base + n - 1 < |partials| then freqs[n - 1] * partials[base + n - 1] else 0.0)
  }

  /** Pattern k's log-likelihood: log of its frequency-weighted root partials plus the core's log scaling factor. */
  function PatternLogLikelihood(lay: Layout, partials: seq<real>, freqs: seq<real>, k: nat,
                                log: real -> Ext, logScale: nat -> real): Ext
  {
    Add(log(FrequencyWeighted(partials, freqs, k * lay.states, lay.states)), Fin(logScale(k)))
  }

  /** A weighted sum reads only its own n entries. */
  lemma {:induction false} FrequencyWeightedLocal(p1: seq<real>, p2: seq<real>, freqs: seq<real>, base: nat, n: nat)
    requires base + n <= |p1| && base + n <= |p2|
    requires forall j :: base <= j < base + n ==> p1[j] == p2[j]
    ensures FrequencyWeighted(p1, freqs, base, n) == FrequencyWeighted(p2, freqs, base, n)
  {
    if n > 0 {
      FrequencyWeightedLocal(p1, p2, freqs, base, n - 1);
    }
  }

  /**
   * Pattern k's log-likelihood depends only on its own block k*S .. k*S+S-1 of
   * the root partials: the pattern-by-state layout.
   */
  lemma PatternLogLikelihoodLocal(lay: Layout, p1: seq<real>, p2: seq<real>, freqs: seq<real>, k: nat,
                                  log: real -> Ext, logScale: nat -> real)
    requires |p1| == |p2| && k * lay.states + lay.states <= |p1|
    requires forall j :: k * lay.states <= j < k * lay.states + lay.states ==> p1[j] == p2[j]
    ensures PatternLogLikelihood(lay, p1, freqs, k, log, logScale) == PatternLogLikelihood(lay, p2, freqs, k, log, logScale)
  {
    FrequencyWeightedLocal(p1, p2, freqs, k * lay.states, lay.states);
  }

  /** The pattern weights: positive counts. */
  predicate PositiveWeights(w: seq<int>, n: nat)
  {
    n <= |w| && forall i :: 0 <= i < n ==> w[i] > 0
  }

  /**
   * logP of calcLogP: the sum of (ll[i] - c) * w[i] over the first n patterns,
   * with c the ascertainment correction, or ll[i] * w[i] without one.
   */
  function WeightedLogP(ll: seq<Ext>, w: seq<int>, n: nat, ascertainment: Option<real>): Ext
    requires n <= |ll| && PositiveWeights(w, n)
  {
    if n == 0 then Fin(0.0)
    else
      var term := match ascertainment
                  case Some(c) => Times(w[n - 1], Minus(ll[n - 1], c))
                  case None => Times(w[n - 1], ll[n - 1]);
      Add(WeightedLogP(ll, w, n - 1, ascertainment), term)
  }

  /** logP is negative infinity exactly when some pattern's log-likelihood is. */
  lemma {:induction false} WeightedLogPNegInf(ll: seq<Ext>, w: seq<int>, n: nat, ascertainment: Option<real>)
    requires n <= |ll| && PositiveWeights(w, n)
    ensures WeightedLogP(ll, w, n, ascertainment).NegInf? <==> exists i :: 0 <= i < n && ll[i].NegInf?
  {
    if n > 0 {
      WeightedLogPNegInf(ll, w, n - 1, ascertainment);
    }
  }

  /** Sum of the first n weights. */
  function TotalWeight(w: seq<int>, n: nat): int
    requires n <= |w|
  {
    if n == 0 then 0 else TotalWeight(w, n - 1) + w[n - 1]
  }

  lemma ShiftTerm(a: real, c: real, w: int)
    ensures w as real * (a - c) == w as real * a - w as real * c
  {
  }

  /**
   * For finite pattern log-likelihoods, the ascertainment correction c lowers
   * logP by c times the total pattern weight.
   */
  lemma {:induction false} AscertainmentShift(ll: seq<Ext>, w: seq<int>, n: nat, c: real)
    requires n <= |ll| && PositiveWeights(w, n)
    requires forall i :: 0 <= i < n ==> ll[i].Fin?
    ensures WeightedLogP(ll, w, n, Some(c)).Fin? && WeightedLogP(ll, w, n, None).Fin?
    ensures WeightedLogP(ll, w, n, Some(c)).v == WeightedLogP(ll, w, n, None).v - TotalWeight(w, n) as real * c
  {
    if n > 0 {
      AscertainmentShift(ll, w, n - 1, c);
      var s := WeightedLogP(ll, w, n - 1, None).v;
      var t := TotalWeight(w, n - 1) as real;
      var wn := w[n - 1] as real;
      var a := ll[n - 1].v;
      ShiftTerm(a, c, w[n - 1]);
      assert (s - t * c) + (wn * a - wn * c) == (s + wn * a) - (t + wn) * c by {
        assert (t + wn) * c == t * c + wn * c;
      }
    }
  }

  // ---------------------------------------------------------------------
  // getNoChangeRates
  // ---------------------------------------------------------------------

  /** Entry (a, b) of a row-major S-by-S matrix. */
  function Entry(m: seq<real>, s: nat, a: nat, b: nat): real
  {
    if a * s + b < |m| then m[a * s + b] else 0.0
  }

  /**
   * The first n terms of the i-th diagonal entry of evec * diag(eval) * ievc:
   * (evec[i][j] * eval[j]) * ievc[j][i], added for j = 0 .. n-1.
   */
  function DiagonalUpTo(evec: seq<real>, eval: seq<real>, ievc: seq<real>, s: nat, i: nat, n: nat): real
  {
    if n == 0 then 0.0
    else DiagonalUpTo(evec, eval, ievc, s, i, n - 1) +
         Entry(evec, s, i, n - 1) * (if n - 1 < |eval| then eval[n - 1] else 0.0) * Entry(ievc, s, n - 1, i)
  }

  /** The rate of no change in state i: the i-th diagonal entry of the rate matrix. */
  function NoChangeRate(evec: seq<real>, eval: seq<real>, ievc: seq<real>, s: nat, i: nat): real
  {
    DiagonalUpTo(evec, eval, ievc, s, i, s)
  }

  /** Entry w = a*S + b of evec with column b scaled by eval[b]. */
  function ScaledEntry(evec: seq<real>, eval: seq<real>, s: nat, w: nat): real
  {
    if s > 0 && w < |evec| && w % s < |eval| then evec[w] * eval[w % s] else 0.0
  }

  lemma ScaledEntryAt(evec: seq<real>, eval: seq<real>, s: nat, a: nat, b: nat)
    requires a < s && b < s && |evec| == s * s && |eval| == s
    ensures a * s + b < s * s
    ensures ScaledEntry(evec, eval, s, a * s + b) == Entry(evec, s, a, b) * eval[b]
  {
    BlockBound(a, s, s);
    DivOfLayout(a, s, b);
  }

  lemma EntryAt(m: seq<real>, s: nat, a: nat, b: nat)
    requires a < s && b < s && |m| == s * s
    ensures a * s + b < s * s && Entry(m, s, a, b) == m[a * s + b]
  {
    BlockBound(a, s, s);
  }

  lemma DiagonalUpToStep(evec: seq<real>, eval: seq<real>, ievc: seq<real>, s: nat, i: nat, j: nat)
    requires j < |eval|
    ensures DiagonalUpTo(evec, eval, ievc, s, i, j + 1) ==
            DiagonalUpTo(evec, eval, ievc, s, i, j) + Entry(evec, s, i, j) * eval[j] * Entry(ievc, s, j, i)
  {
  }

  /** One more term of the diagonal entry, from the scaled eigenvector entry (i, j). */
  lemma DiagonalUpToNext(evec: seq<real>, eval: seq<real>, ievc: seq<real>, s: nat, i: nat, j: nat)
    requires i < s && j < s && |evec| == s * s && |eval| == s && |ievc| == s * s
    ensures i * s + j < s * s && j * s + i < s * s
    ensures DiagonalUpTo(evec, eval, ievc, s, i, j + 1) ==
            DiagonalUpTo(evec, eval, ievc, s, i, j) + ScaledEntry(evec, eval, s, i * s + j) * ievc[j * s + i]
  {
    DiagonalUpToStep(evec, eval, ievc, s, i, j);
    ScaledEntryAt(evec, eval, s, i, j);
    EntryAt(ievc, s, j, i);
  }

  predicate IsIdentity(m: seq<real>, s: nat)
  {
    |m| == s * s && forall a, b :: 0 <= a < s && 0 <= b < s ==> Entry(m, s, a, b) == (if a == b then 1.0 else 0.0)
  }

  lemma {:induction false} DiagonalOfDiagonalUpTo(evec: seq<real>, eval: seq<real>, ievc: seq<real>, s: nat, i: nat, n: nat)
    requires IsIdentity(evec, s) && IsIdentity(ievc, s) && |eval| == s && i < s && n <= s
    ensures DiagonalUpTo(evec, eval, ievc, s, i, n) == (if i < n then eval[i] else 0.0)
  {
    if n > 0 {
      DiagonalOfDiagonalUpTo(evec, eval, ievc, s, i, n - 1);
      assert Entry(evec, s, i, n - 1) == (if i == n - 1 then 1.0 else 0.0);
      assert Entry(ievc, s, n - 1, i) == (if i == n - 1 then 1.0 else 0.0);
    }
  }

  /**
   * With identity eigenvectors (a diagonal rate matrix) the rate of no change
   * in state i is the i-th eigenvalue.
   */
  lemma NoChangeRateOfDiagonalMatrix(evec: seq<real>, eval: seq<real>, ievc: seq<real>, s: nat, i: nat)
    requires IsIdentity(evec, s) && IsIdentity(ievc, s) && |eval| == s && i < s
    ensures NoChangeRate(evec, eval, ievc, s, i) == eval[i]
  {
    DiagonalOfDiagonalUpTo(evec, eval, ievc, s, i, s);
  }

  // ---------------------------------------------------------------------
  // traverse: status and branch-length cache
  // ---------------------------------------------------------------------

  /**
   * A node status: Tree.IS_CLEAN, IS_DIRTY and IS_FILTHY are 0, 1 and 2 and
   * are only ever combined with bitwise or, so two bits hold every value.
   */
  type Dirt = bv2

  /** Tree.IS_CLEAN, IS_DIRTY and IS_FILTHY, combined with Java's bitwise or. */
  const CLEAN: Dirt := 0
  const DIRTY: Dirt := 1
  const FILTHY: Dirt := 2

  /** The partial branch below a haplotype start: its haplotype and its rate-scaled time. */
  datatype HaploBranch = HaploBranch(haploNr: nat, partBranchTime: real)

  /**
   * A node as traverse sees it: number, isDirty(), the branch length it uses
   * (getTotalBranchLengths at a leaf, getLengthWithoutHaplo elsewhere), the
   * branch rate, and the partial branch when a haplotype starts above it.
   */
  datatype TNode =
    | Leaf(nr: nat, dirt: Dirt, length: real, branchRate: real, haplo: Option<HaploBranch>)
    | Internal(nr: nat, dirt: Dirt, length: real, branchRate: real, haplo: Option<HaploBranch>,
               left: TNode, right: TNode)

  /** totalBranchTime * branchRate; the root's own branch counts 0. */
  function BranchTime(n: TNode, isRoot: bool): real
  {
    (if n.Leaf? then n.length else if isRoot then 0.0 else n.length) * n.branchRate
  }

  /** Cache slot of a haplotype's partial branch: nodeCount + haploNr. */
  function HaploSlot(h: HaploBranch, nodeCount: nat): nat
  {
    nodeCount + h.haploNr
  }

  /** Every cache slot the subtree uses lies inside a cache of length len. */
  predicate SlotsIn(n: TNode, nodeCount: nat, len: nat)
  {
    n.nr < len && (n.haplo.Some? ==> HaploSlot(n.haplo.value, nodeCount) < len) &&
    (n.Internal? ==> SlotsIn(n.left, nodeCount, len) && SlotsIn(n.right, nodeCount, len))
  }

  /** The status after the haplotype check: DIRTY is added when the partial branch is recomputed. */
  function HaploStatus(n: TNode, hasDirt: Dirt, cache: seq<real>, nodeCount: nat): Dirt
    requires SlotsIn(n, nodeCount, |cache|)
  {
    var s0 := n.dirt | hasDirt;
    if n.haplo.Some? && (s0 != CLEAN || n.haplo.value.partBranchTime != cache[HaploSlot(n.haplo.value, nodeCount)])
    then s0 | DIRTY else s0
  }

  /** Whether the node's own branch (leaf, internal or root-origin) is recomputed. */
  predicate BranchRefreshed(n: TNode, hasDirt: Dirt, cache: seq<real>, nodeCount: nat, isRoot: bool)
    requires SlotsIn(n, nodeCount, |cache|)
  {
    HaploStatus(n, hasDirt, cache, nodeCount) != CLEAN || BranchTime(n, isRoot) != cache[n.nr]
  }

  /** The node's status before its children are visited. */
  function OwnStatus(n: TNode, hasDirt: Dirt, cache: seq<real>, nodeCount: nat, isRoot: bool): Dirt
    requires SlotsIn(n, nodeCount, |cache|)
  {
    var s1 := HaploStatus(n, hasDirt, cache, nodeCount);
    if BranchRefreshed(n, hasDirt, cache, nodeCount, isRoot) then s1 | DIRTY else s1
  }

  /** The cache after the haplotype check: the partial branch's slot is rewritten when it is recomputed. */
  function HaploCache(n: TNode, hasDirt: Dirt, cache: seq<real>, nodeCount: nat): (r: seq<real>)
    requires SlotsIn(n, nodeCount, |cache|)
    ensures |r| == |cache|
  {
    var s0 := n.dirt | hasDirt;
    if n.haplo.Some? && (s0 != CLEAN || n.haplo.value.partBranchTime != cache[HaploSlot(n.haplo.value, nodeCount)])
    then cache[HaploSlot(n.haplo.value, nodeCount) := n.haplo.value.partBranchTime] else cache
  }

  /** The cache after the node's own updates: the haplotype check, then the node's own branch. */
  function OwnCache(n: TNode, hasDirt: Dirt, cache: seq<real>, nodeCount: nat, isRoot: bool): (r: seq<real>)
    requires SlotsIn(n, nodeCount, |cache|)
    ensures |r| == |cache|
  {
    var c1 := HaploCache(n, hasDirt, cache, nodeCount);
    if BranchRefreshed(n, hasDirt, cache, nodeCount, isRoot) then c1[n.nr := BranchTime(n, isRoot)] else c1
  }

  /** The branch-length cache after traverse(n): own updates first, then the left subtree, then the right. */
  function CacheAfter(n: TNode, hasDirt: Dirt, cache: seq<real>, nodeCount: nat, isRoot: bool): (r: seq<real>)
    requires SlotsIn(n, nodeCount, |cache|)
    ensures |r| == |cache|
  {
    var c1 := OwnCache(n, hasDirt, cache, nodeCount, isRoot);
    match n
    case Leaf(_, _, _, _, _) => c1
    case Internal(_, _, _, _, _, left, right) =>
      CacheAfter(right, hasDirt, CacheAfter(left, hasDirt, c1, nodeCount, false), nodeCount, false)
  }

  /** The status traverse(n) returns: its own status or'ed with both children's. */
  function Status(n: TNode, hasDirt: Dirt, cache: seq<real>, nodeCount: nat, isRoot: bool): Dirt
    requires SlotsIn(n, nodeCount, |cache|)
  {
    var own := OwnStatus(n, hasDirt, cache, nodeCount, isRoot);
    match n
    case Leaf(_, _, _, _, _) => own
    case Internal(_, _, _, _, _, left, right) =>
      var c1 := OwnCache(n, hasDirt, cache, nodeCount, isRoot);
      var c2 := CacheAfter(left, hasDirt, c1, nodeCount, false);
      own | Status(left, hasDirt, c1, nodeCount, false) | Status(right, hasDirt, c2, nodeCount, false)
  }

  /** The leaves whose scale buffers traverse(n) recomputes (and flips). */
  function RefreshedLeaves(n: TNode, hasDirt: Dirt, cache: seq<real>, nodeCount: nat, isRoot: bool): set<nat>
    requires SlotsIn(n, nodeCount, |cache|)
  {
    match n
    case Leaf(nr, _, _, _, _) => if BranchRefreshed(n, hasDirt, cache, nodeCount, isRoot) then {nr} else {}
    case Internal(_, _, _, _, _, left, right) =>
      var c1 := OwnCache(n, hasDirt, cache, nodeCount, isRoot);
      var c2 := CacheAfter(left, hasDirt, c1, nodeCount, false);
      RefreshedLeaves(left, hasDirt, c1, nodeCount, false) + RefreshedLeaves(right, hasDirt, c2, nodeCount, false)
  }

  /** The leaf whose scale buffer the node's own step recomputes, if any: a leaf whose branch is refreshed. */
  function OwnRefreshed(n: TNode, hasDirt: Dirt, cache: seq<real>, nodeCount: nat, isRoot: bool): set<nat>
    requires SlotsIn(n, nodeCount, |cache|)
  {
    if n.Leaf? && BranchRefreshed(n, hasDirt, cache, nodeCount, isRoot) then {n.nr} else {}
  }

  /** hasDirt is clean and so is every node of the subtree. */
  predicate AllClean(n: TNode, hasDirt: Dirt)
  {
    hasDirt == CLEAN && n.dirt == CLEAN &&
    (n.Internal? ==> AllClean(n.left, hasDirt) && AllClean(n.right, hasDirt))
  }

  /** Every cache slot of the subtree already holds the node's current branch time. */
  predicate Consistent(n: TNode, cache: seq<real>, nodeCount: nat, isRoot: bool)
    requires SlotsIn(n, nodeCount, |cache|)
  {
    cache[n.nr] == BranchTime(n, isRoot) &&
    (n.haplo.Some? ==> cache[HaploSlot(n.haplo.value, nodeCount)] == n.haplo.value.partBranchTime) &&
    (n.Internal? ==> Consistent(n.left, cache, nodeCount, false) && Consistent(n.right, cache, nodeCount, false))
  }

  /**
   * traverse returns CLEAN exactly when no node (nor hasDirt) is dirty and the
   * cache already holds every branch time; then it changes no cache entry.
   */
  lemma {:induction false} StatusCleanIff(n: TNode, hasDirt: Dirt, cache: seq<real>, nodeCount: nat, isRoot: bool)
    requires SlotsIn(n, nodeCount, |cache|)
    ensures Status(n, hasDirt, cache, nodeCount, isRoot) == CLEAN <==>
            AllClean(n, hasDirt) && Consistent(n, cache, nodeCount, isRoot)
    ensures Status(n, hasDirt, cache, nodeCount, isRoot) == CLEAN ==>
            CacheAfter(n, hasDirt, cache, nodeCount, isRoot) == cache
  {
    var own := OwnStatus(n, hasDirt, cache, nodeCount, isRoot);
    var c1 := OwnCache(n, hasDirt, cache, nodeCount, isRoot);
    assert own == CLEAN <==>
             (n.dirt == CLEAN && hasDirt == CLEAN &&
              (n.haplo.Some? ==> cache[HaploSlot(n.haplo.value, nodeCount)] == n.haplo.value.partBranchTime) &&
              cache[n.nr] == BranchTime(n, isRoot));
    if own == CLEAN {
      assert c1 == cache;
    }
    match n
    case Leaf(_, _, _, _, _) =>
    case Internal(_, _, _, _, _, left, right) =>
      StatusCleanIff(left, hasDirt, c1, nodeCount, false);
      var c2 := CacheAfter(left, hasDirt, c1, nodeCount, false);
      StatusCleanIff(right, hasDirt, c2, nodeCount, false);
  }

  /** The cache slots of a subtree. */
  function Slots(n: TNode, nodeCount: nat): set<nat>
  {
    {n.nr} + (if n.haplo.Some? then {HaploSlot(n.haplo.value, nodeCount)} else {}) +
    (if n.Internal? then Slots(n.left, nodeCount) + Slots(n.right, nodeCount) else {})
  }

  /**
   * No two branches share a slot: node numbers are below nodeCount, and the
   * slots of a node and of its two subtrees are pairwise disjoint.
   */
  predicate DistinctSlots(n: TNode, nodeCount: nat)
  {
    n.nr < nodeCount &&
    (n.Internal? ==>
       DistinctSlots(n.left, nodeCount) && DistinctSlots(n.right, nodeCount) &&
       Slots(n.left, nodeCount) !! Slots(n.right, nodeCount) &&
       n.nr !in Slots(n.left, nodeCount) + Slots(n.right, nodeCount) &&
       (n.haplo.Some? ==> HaploSlot(n.haplo.value, nodeCount) !in Slots(n.left, nodeCount) + Slots(n.right, nodeCount)))
  }

  /** traverse(n) writes only the slots of n's subtree. */
  lemma {:induction false} CacheAfterFrame(n: TNode, hasDirt: Dirt, cache: seq<real>, nodeCount: nat, isRoot: bool, j: nat)
    requires SlotsIn(n, nodeCount, |cache|) && j < |cache| && j !in Slots(n, nodeCount)
    ensures CacheAfter(n, hasDirt, cache, nodeCount, isRoot)[j] == cache[j]
  {
    match n
    case Leaf(_, _, _, _, _) =>
    case Internal(_, _, _, _, _, left, right) =>
      var c1 := OwnCache(n, hasDirt, cache, nodeCount, isRoot);
      CacheAfterFrame(left, hasDirt, c1, nodeCount, false, j);
      CacheAfterFrame(right, hasDirt, CacheAfter(left, hasDirt, c1, nodeCount, false), nodeCount, false, j);
  }

  /** Consistency of a subtree survives writes outside its slots. */
  lemma {:induction false} ConsistentFrame(n: TNode, c1: seq<real>, c2: seq<real>, nodeCount: nat, isRoot: bool)
    requires |c1| == |c2| && SlotsIn(n, nodeCount, |c1|)
    requires forall j :: j in Slots(n, nodeCount) && j < |c1| ==> c1[j] == c2[j]
    requires Consistent(n, c1, nodeCount, isRoot)
    ensures Consistent(n, c2, nodeCount, isRoot)
  {
    if n.Internal? {
      ConsistentFrame(n.left, c1, c2, nodeCount, false);
      ConsistentFrame(n.right, c1, c2, nodeCount, false);
    }
  }

  /** With distinct slots, after traverse(n) the cache holds every branch time of the subtree. */
  lemma {:induction false} TraversalMakesConsistent(n: TNode, hasDirt: Dirt, cache: seq<real>, nodeCount: nat, isRoot: bool)
    requires SlotsIn(n, nodeCount, |cache|) && DistinctSlots(n, nodeCount)
    ensures Consistent(n, CacheAfter(n, hasDirt, cache, nodeCount, isRoot), nodeCount, isRoot)
  {
    var c1 := OwnCache(n, hasDirt, cache, nodeCount, isRoot);
    assert c1[n.nr] == BranchTime(n, isRoot);
    assert n.haplo.Some? ==> c1[HaploSlot(n.haplo.value, nodeCount)] == n.haplo.value.partBranchTime;
    match n
    case Leaf(_, _, _, _, _) =>
    case Internal(_, _, _, _, _, left, right) =>
      var c2 := CacheAfter(left, hasDirt, c1, nodeCount, false);
      var c3 := CacheAfter(right, hasDirt, c2, nodeCount, false);
      TraversalMakesConsistent(left, hasDirt, c1, nodeCount, false);
      TraversalMakesConsistent(right, hasDirt, c2, nodeCount, false);
      forall j | j in Slots(left, nodeCount) && j < |c2|
        ensures c2[j] == c3[j]
      {
        CacheAfterFrame(right, hasDirt, c2, nodeCount, false, j);
      }
      ConsistentFrame(left, c2, c3, nodeCount, false);
      CacheAfterFrame(left, hasDirt, c1, nodeCount, false, n.nr);
      CacheAfterFrame(right, hasDirt, c2, nodeCount, false, n.nr);
      if n.haplo.Some? {
        var h := HaploSlot(n.haplo.value, nodeCount);
        CacheAfterFrame(left, hasDirt, c1, nodeCount, false, h);
        CacheAfterFrame(right, hasDirt, c2, nodeCount, false, h);
      }
  }

  /**
   * A second traverse right after the first (same tree, same hasDirt) is
   * CLEAN exactly when nothing is marked dirty: the branch lengths alone never
   * cause a recomputation twice.
   */
  lemma RetraversalCleanIff(n: TNode, hasDirt: Dirt, cache: seq<real>, nodeCount: nat, isRoot: bool)
    requires SlotsIn(n, nodeCount, |cache|) && DistinctSlots(n, nodeCount)
    ensures var after := CacheAfter(n, hasDirt, cache, nodeCount, isRoot);
            Status(n, hasDirt, after, nodeCount, isRoot) == CLEAN <==> AllClean(n, hasDirt)
  {
    var after := CacheAfter(n, hasDirt, cache, nodeCount, isRoot);
    TraversalMakesConsistent(n, hasDirt, cache, nodeCount, isRoot);
    StatusCleanIff(n, hasDirt, after, nodeCount, isRoot);
  }

  /** A non-CLEAN hasDirt (set by requiresRecalculation) forces traverse to report a change. */
  lemma DirtyForcesRecompute(n: TNode, hasDirt: Dirt, cache: seq<real>, nodeCount: nat, isRoot: bool)
    requires SlotsIn(n, nodeCount, |cache|) && hasDirt != CLEAN
    ensures Status(n, hasDirt, cache, nodeCount, isRoot) != CLEAN
  {
    StatusCleanIff(n, hasDirt, cache, nodeCount, isRoot);
  }

  /** m is one of the leaves of the subtree n. */
  predicate LeafIn(m: TNode, n: TNode)
  {
    match n
    case Leaf(_, _, _, _, _) => m == n
    case Internal(_, _, _, _, _, left, right) => LeafIn(m, left) || LeafIn(m, right)
  }

  /** Only leaves are leaves of a subtree. */
  lemma {:induction false} LeafInIsLeaf(m: TNode, n: TNode)
    requires LeafIn(m, n)
    ensures m.Leaf?
  {
    if n.Internal? {
      if LeafIn(m, n.left) {
        LeafInIsLeaf(m, n.left);
      } else {
        LeafInIsLeaf(m, n.right);
      }
    }
  }

  /** The numbers of the leaves of the subtree n. */
  function LeafNrs(n: TNode): set<nat>
  {
    match n
    case Leaf(nr, _, _, _, _) => {nr}
    case Internal(_, _, _, _, _, left, right) => LeafNrs(left) + LeafNrs(right)
  }

  /** A leaf of n has its number among n's leaf numbers. */
  lemma {:induction false} LeafNrOf(m: TNode, n: TNode)
    requires LeafIn(m, n)
    ensures m.nr in LeafNrs(n)
  {
    if n.Internal? {
      if LeafIn(m, n.left) {
        LeafNrOf(m, n.left);
      } else {
        LeafNrOf(m, n.right);
      }
    }
  }

  /** Every leaf number of n is the number of a leaf of n. */
  lemma {:induction false} LeafWithNr(j: nat, n: TNode)
    requires j in LeafNrs(n)
    ensures exists m :: LeafIn(m, n) && m.nr == j
  {
    match n
    case Leaf(_, _, _, _, _) =>
      assert LeafIn(n, n);
    case Internal(_, _, _, _, _, left, right) =>
      if j in LeafNrs(left) {
        LeafWithNr(j, left);
        var m :| LeafIn(m, left) && m.nr == j;
        assert LeafIn(m, n);
      } else {
        LeafWithNr(j, right);
        var m :| LeafIn(m, right) && m.nr == j;
        assert LeafIn(m, n);
      }
  }

  /**
   * With hasDirt not CLEAN (the FILTHY retraversal of a rescale), traverse
   * refreshes exactly the leaves of the tree, whatever the cache holds.
   */
  lemma {:induction false} DirtyRefreshesEveryLeaf(n: TNode, hasDirt: Dirt, cache: seq<real>, nodeCount: nat, isRoot: bool)
    requires SlotsIn(n, nodeCount, |cache|) && hasDirt != CLEAN
    ensures RefreshedLeaves(n, hasDirt, cache, nodeCount, isRoot) == LeafNrs(n)
  {
    assert HaploStatus(n, hasDirt, cache, nodeCount) != CLEAN;
    match n
    case Leaf(_, _, _, _, _) =>
    case Internal(_, _, _, _, _, left, right) =>
      var c1 := OwnCache(n, hasDirt, cache, nodeCount, isRoot);
      DirtyRefreshesEveryLeaf(left, hasDirt, c1, nodeCount, false);
      DirtyRefreshesEveryLeaf(right, hasDirt, CacheAfter(left, hasDirt, c1, nodeCount, false), nodeCount, false);
  }

  /**
   * A leaf that traverse(n) does not refresh already had its branch time in
   * the cache: no step of the traversal before it writes its slot.
   */
  lemma {:induction false} UnrefreshedLeafCached(n: TNode, hasDirt: Dirt, cache: seq<real>, nodeCount: nat, isRoot: bool,
                                                 m: TNode)
    requires SlotsIn(n, nodeCount, |cache|) && DistinctSlots(n, nodeCount) && LeafIn(m, n) && m.nr < |cache|
    requires m.nr !in RefreshedLeaves(n, hasDirt, cache, nodeCount, isRoot)
    ensures cache[m.nr] == BranchTime(m, false)
  {
    match n
    case Leaf(_, _, _, _, _) =>
    case Internal(_, _, _, _, _, left, right) =>
      var c1 := OwnCache(n, hasDirt, cache, nodeCount, isRoot);
      var c2 := CacheAfter(left, hasDirt, c1, nodeCount, false);
      if LeafIn(m, left) {
        LeafInSlots(m, left, nodeCount);
        UnrefreshedLeafCached(left, hasDirt, c1, nodeCount, false, m);
      } else {
        LeafInSlots(m, right, nodeCount);
        UnrefreshedLeafCached(right, hasDirt, c2, nodeCount, false, m);
        CacheAfterFrame(left, hasDirt, c1, nodeCount, false, m.nr);
      }
  }

  /** A leaf of a subtree whose cache is consistent has its branch time in its slot. */
  lemma {:induction false} ConsistentLeaf(m: TNode, n: TNode, cache: seq<real>, nodeCount: nat, isRoot: bool)
    requires SlotsIn(n, nodeCount, |cache|) && Consistent(n, cache, nodeCount, isRoot) && LeafIn(m, n)
    ensures m.Leaf? && m.nr < |cache| && cache[m.nr] == BranchTime(m, false)
  {
    if n.Internal? {
      if LeafIn(m, n.left) {
        ConsistentLeaf(m, n.left, cache, nodeCount, false);
      } else {
        ConsistentLeaf(m, n.right, cache, nodeCount, false);
      }
    }
  }

  /** Leaves are numbered below leafCount. */
  predicate LeafNrsBelow(n: TNode, leafCount: nat)
  {
    match n
    case Leaf(nr, _, _, _, _) => nr < leafCount
    case Internal(_, _, _, _, _, left, right) => LeafNrsBelow(left, leafCount) && LeafNrsBelow(right, leafCount)
  }

  /** A leaf's number is one of its subtree's cache slots. */
  lemma {:induction false} LeafInSlots(m: TNode, n: TNode, nodeCount: nat)
    requires LeafIn(m, n)
    ensures m.nr in Slots(n, nodeCount)
  {
    if n.Internal? {
      if LeafIn(m, n.left) {
        LeafInSlots(m, n.left, nodeCount);
      } else {
        LeafInSlots(m, n.right, nodeCount);
      }
    }
  }

  /** The leaves traverse(n) refreshes are leaves of n: slots of n, numbered below leafCount. */
  lemma {:induction false} RefreshedLeavesOfSubtree(n: TNode, hasDirt: Dirt, cache: seq<real>, nodeCount: nat, isRoot: bool,
                                                    leafCount: nat, j: nat)
    requires SlotsIn(n, nodeCount, |cache|) && LeafNrsBelow(n, leafCount)
    requires j in RefreshedLeaves(n, hasDirt, cache, nodeCount, isRoot)
    ensures j in Slots(n, nodeCount) && j < leafCount
  {
    match n
    case Leaf(_, _, _, _, _) =>
    case Internal(_, _, _, _, _, left, right) =>
      var c1 := OwnCache(n, hasDirt, cache, nodeCount, isRoot);
      var c2 := CacheAfter(left, hasDirt, c1, nodeCount, false);
      if j in RefreshedLeaves(left, hasDirt, c1, nodeCount, false) {
        RefreshedLeavesOfSubtree(left, hasDirt, c1, nodeCount, false, leafCount, j);
      } else {
        RefreshedLeavesOfSubtree(right, hasDirt, c2, nodeCount, false, leafCount, j);
      }
  }

  // ---------------------------------------------------------------------
  // calcLogP as a whole
  // ---------------------------------------------------------------------

  /**
   * The root partials calcLogP hands to calculateLogLikelihoods: the
   * integrated partials, plus the invariant proportion once for every
   * occurrence of the index in the constant-pattern list.
   */
  function RootPartialsAfter(lay: Layout, inP: seq<real>, prop: seq<real>, acc: seq<real>, exp: real -> real,
                             constantPattern: Option<seq<nat>>, proportionInvariant: real): (r: seq<real>)
    ensures |r| == lay.Block()
  {
    seq(lay.Block(), u requires 0 <= u =>
          Integrated(lay, inP, prop, acc, exp, u, ByCategoryPattern) +
          (if constantPattern.Some? then Occurrences(constantPattern.value, u) as real * proportionInvariant else 0.0))
  }

  /** Integrated partials, then the invariant proportion added at the constant patterns, give RootPartialsAfter. */
  lemma RootPartialsAfterIntro(lay: Layout, inP: seq<real>, prop: seq<real>, acc: seq<real>, exp: real -> real,
                               constantPattern: Option<seq<nat>>, proportionInvariant: real,
                               integrated: seq<real>, r: seq<real>)
    requires |integrated| == lay.Block()
    requires forall u :: 0 <= u < lay.Block() ==> integrated[u] == Integrated(lay, inP, prop, acc, exp, u, ByCategoryPattern)
    requires constantPattern.Some? ==> InvariantAdded(integrated, r, constantPattern.value, proportionInvariant)
    requires constantPattern.None? ==> r == integrated
    ensures r == RootPartialsAfter(lay, inP, prop, acc, exp, constantPattern, proportionInvariant)
  {
    var expected := RootPartialsAfter(lay, inP, prop, acc, exp, constantPattern, proportionInvariant);
    assert |r| == |expected|;
    forall u | 0 <= u < |r|
      ensures r[u] == expected[u]
    {
      if constantPattern.None? {
        assert expected[u] == integrated[u] + 0.0;
      }
    }
  }

  /**
   * With the list calcConstantPatternIndices builds (0, 1, ..., P*S - 1),
   * every root partial is its integrated value plus the invariant proportion.
   */
  lemma RootPartialsWithIdentityList(lay: Layout, inP: seq<real>, prop: seq<real>, acc: seq<real>, exp: real -> real,
                                     cp: seq<nat>, proportionInvariant: real, u: nat)
    requires |cp| == lay.Block() && forall j :: 0 <= j < |cp| ==> cp[j] == j
    requires u < lay.Block()
    ensures RootPartialsAfter(lay, inP, prop, acc, exp, Some(cp), proportionInvariant)[u] ==
            Integrated(lay, inP, prop, acc, exp, u, ByCategoryPattern) + proportionInvariant
  {
    IdentityListOccurrences(cp, u);
  }

  /** Every pattern's log-likelihood, from the root partials. */
  function PatternLogLikelihoods(lay: Layout, partials: seq<real>, freqs: seq<real>,
                                 log: real -> Ext, logScale: nat -> real): (r: seq<Ext>)
    ensures |r| == lay.patterns
  {
    seq(lay.patterns, k requires 0 <= k => PatternLogLikelihood(lay, partials, freqs, k, log, logScale))
  }

  /** logP of calcLogP: the pattern log-likelihoods weighted, less the ascertainment correction when there is one. */
  function LogPOf(lay: Layout, ll: seq<Ext>, weights: seq<int>, ascertained: bool, correction: seq<Ext> -> real): Ext
    requires |ll| == lay.patterns && PositiveWeights(weights, lay.patterns)
  {
    WeightedLogP(ll, weights, lay.patterns, if ascertained then Some(correction(ll)) else None)
  }

  // ---------------------------------------------------------------------
  // getTaxonIndex
  // ---------------------------------------------------------------------

  /** Alignment.getTaxonIndex: the first position of the name, or -1. */
  function IndexOf(taxa: seq<string>, name: string): (r: int)
    ensures -1 <= r < |taxa|
    ensures r >= 0 ==> taxa[r] == name && forall j :: 0 <= j < r ==> taxa[j] != name
    ensures r == -1 <==> name !in taxa
  {
    if |taxa| == 0 then -1
    else if taxa[0] == name then 0
    else
      var r := IndexOf(taxa[1..], name);
      if r == -1 then -1 else r + 1
  }

  predicate StartsWithQuote(taxon: string)
  {
    |taxon| > 0 && (taxon[0] == '\'' || taxon[0] == '"')
  }

  /**
   * getTaxonIndex: the taxon's index; failing that, for a name starting with
   * a quote, the index of the name without its first and last character.
   */
  function GetTaxonIndex(taxon: string, taxa: seq<string>): (r: Result<nat>)
    ensures r.Ok? ==> r.value < |taxa|
  {
    var direct := IndexOf(taxa, taxon);
    if direct != -1 then Ok(direct as nat)
    else if StartsWithQuote(taxon) && |taxon| < 2 then
      Error("StringIndexOutOfBoundsException: substring(1, 0)")
    else
      var second := if StartsWithQuote(taxon) then IndexOf(taxa, taxon[1..|taxon| - 1]) else -1;
      if second == -1 then Error("Could not find sequence " + taxon + " in the alignment")
      else Ok(second as nat)
  }

  /** What getTaxonIndex finds: the name itself, or the name inside its quotes; and when it fails. */
  lemma GetTaxonIndexMeaning(taxon: string, taxa: seq<string>)
    ensures var r := GetTaxonIndex(taxon, taxa);
            (taxon in taxa ==> r == Ok(IndexOf(taxa, taxon))) &&
            (taxon !in taxa && !StartsWithQuote(taxon) ==> r.Error?) &&
            (taxon !in taxa && StartsWithQuote(taxon) && |taxon| >= 2 ==>
               (r.Ok? <==> taxon[1..|taxon| - 1] in taxa) &&
               (r.Ok? ==> taxa[r.value] == taxon[1..|taxon| - 1]))
  {
  }

  /** A quoted name that is not itself a taxon finds the unquoted taxon. */
  lemma QuotedNameFindsTaxon(name: string, taxa: seq<string>, quote: char)
    requires quote == '\'' || quote == '"'
    requires [quote] + name + [quote] !in taxa
    ensures GetTaxonIndex([quote] + name + [quote], taxa) ==
            (if name in taxa then Ok(IndexOf(taxa, name))
             else Error("Could not find sequence " + ([quote] + name + [quote]) + " in the alignment"))
  {
    var q := [quote] + name + [quote];
    assert q[1..|q| - 1] == name;
  }
}
