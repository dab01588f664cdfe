/**
 * The three MCMC operators on incidence attachment times
 * (piqmee.operators.QuasiSpeciesIncidenceAttachmentRandom,
 *  QuasiSpeciesIncidenceAttachmentUniform and QuasiSpeciesIncidencesScale).
 *
 * Each proposal picks one incidence of the tree, edits its attachment-time
 * array in place and returns a log Hastings ratio. The random draws of the
 * source (Randomizer, ThreadLocalRandom, the operator's RandomGenerator) are
 * parameters: a single draw is one value, a redraw loop consumes a stream of
 * draws. The natural logarithm is the parameter `ln`.
 */
module AttachmentOperators {
  import opened Numeric
  import opened Outcomes
  import opened Incidence

  /** Position of the first draw that lies outside `excluded` (the exit of a redraw loop). */
  function FirstOutside<T>(draws: seq<T>, excluded: set<T>): (k: nat)
    requires exists j :: 0 <= j < |draws| && draws[j] !in excluded
    ensures k < |draws| && draws[k] !in excluded
    ensures forall j :: 0 <= j < k ==> draws[j] in excluded
  {
    if draws[0] !in excluded then 0
    else
      assert exists j :: 0 <= j < |draws[1..]| && draws[1..][j] !in excluded by {
        var j :| 0 <= j < |draws| && draws[j] !in excluded;
        assert j > 0 && draws[1..][j - 1] == draws[j];
      }
      1 + FirstOutside(draws[1..], excluded)
  }

  /** The values held by an attachment-time list, as ArrayList.contains sees them. */
  function Values(s: seq<real>): set<real>
  {
    set x | x in s
  }

  /** Lower neighbour index of `i`, clamped at the first slot. */
  function Below(i: int): int
  {
    if i == 0 then 0 else i - 1
  }

  /** Upper neighbour index of `i`, clamped at the last slot of a list of length n. */
  function Above(i: int, n: int): int
  {
    if i == n - 1 then n - 1 else i + 1
  }

  // ---------------------------------------------------------------------------
  // Random reattachment
  // ---------------------------------------------------------------------------

  /**
   * The new time of the random reattachment: the uniform draw in
   * [s[minIdx], s[minIdx + 1]), or the midpoint of that interval when the
   * draw equals a time already in the list.
   */
  function RandomNewTime(s: seq<real>, minIdx: int, draw: real): (t: real)
    requires 0 <= minIdx < |s| - 1
    requires s[minIdx] <= draw < s[minIdx + 1]
    ensures s[minIdx] <= t < s[minIdx + 1]
    ensures draw !in s ==> t == draw
    ensures draw in s ==> 2.0 * t == s[minIdx] + s[minIdx + 1]
  {
    if draw in s then (s[minIdx + 1] + s[minIdx]) / 2.0 else draw
  }

  /** What the random draws of one random reattachment must satisfy to get past the redraw loop. */
  ghost predicate RandomDrawsValid(n: int, randAttIdx: int, minIdxDraws: seq<int>)
  {
    0 <= randAttIdx < n &&
    (forall j :: 0 <= j < |minIdxDraws| ==> 0 <= minIdxDraws[j] <= n - 2) &&
    (exists j :: 0 <= j < |minIdxDraws| && minIdxDraws[j] !in {randAttIdx})
  }

  /**
   * Whether the redraw loop of the random reattachment can stop: some lower
   * bound in [0, n - 2] differs from the selected index. A list of two times
   * whose first time is selected has none.
   */
  predicate HasOtherLowerBound(n: int, randAttIdx: int)
  {
    n >= 3 || (n == 2 && randAttIdx != 0)
  }

  /**
   * With two times and the first one selected, nextInt(1) always returns 0,
   * the selected index itself, so no stream of draws ends the redraw loop.
   */
  lemma RandomTwoTimesAtFirstHangs()
    ensures forall d :: !RandomDrawsValid(2, 0, d)
  {
  }

  /** Some stream of lower-bound draws ends the redraw loop exactly when another lower bound exists. */
  lemma OtherLowerBoundIff(n: int, randAttIdx: int)
    requires 2 <= n && 0 <= randAttIdx < n
    ensures HasOtherLowerBound(n, randAttIdx) <==> exists d :: RandomDrawsValid(n, randAttIdx, d)
  {
    if HasOtherLowerBound(n, randAttIdx) {
      var d := [if randAttIdx == 0 then 1 else 0];
      assert d[0] !in {randAttIdx};
      assert RandomDrawsValid(n, randAttIdx, d);
    } else {
      RandomTwoTimesAtFirstHangs();
    }
  }

  /**
   * proposal() of the random reattachment operator. With no incidences it
   * returns 0 and changes nothing. A list of fewer than two times makes
   * nextInt throw (its bound is not positive). Otherwise the operator redraws
   * a lower-bound index until it differs from the selected index `randAttIdx`;
   * the source loops forever when there is no such index, and the model
   * rejects the move there instead. When the interval from the chosen lower
   * bound to the next slot is empty, nextDouble throws. Otherwise the selected
   * time is overwritten in place (no re-sorting) by a time in that interval,
   * the old and new value are recorded in the changed-copy markers, the list
   * is marked changed, and the result is
   * ln(new interval width) - ln(width of the old neighbour interval).
   * A thrown exception leaves the incidence untouched.
   */
  method AttachmentRandomProposal(incidences: seq<QuasiSpeciesIncidence>, randIncIdx: int, randAttIdx: int,
                                  minIdxDraws: seq<int>, draw: real, ln: real -> real)
    returns (r: Result<Ext>)
    requires |incidences| > 0 ==> 0 <= randIncIdx < |incidences|
    requires |incidences| > 0 ==>
               var a := incidences[randIncIdx].attachmentTimes;
               (a.Length > 0 ==> 0 <= randAttIdx < a.Length) &&
               (HasOtherLowerBound(a.Length, randAttIdx) ==>
                  RandomDrawsValid(a.Length, randAttIdx, minIdxDraws) &&
                  var minIdx := minIdxDraws[FirstOutside(minIdxDraws, {randAttIdx})];
                  a[minIdx] < a[minIdx + 1] ==> a[minIdx] <= draw < a[minIdx + 1])
    modifies if |incidences| > 0 then {incidences[randIncIdx], incidences[randIncIdx].attachmentTimes} else {}
    ensures |incidences| == 0 ==> r == Ok(Fin(0.0))
    ensures |incidences| > 0 && old(incidences[randIncIdx].attachmentTimes.Length) < 2 ==>
              r.Error? && unchanged(incidences[randIncIdx]) && unchanged(incidences[randIncIdx].attachmentTimes)
    ensures |incidences| > 0 && old(incidences[randIncIdx].attachmentTimes.Length) >= 2 &&
            !HasOtherLowerBound(old(incidences[randIncIdx].attachmentTimes.Length), randAttIdx) ==>
              r == Ok(NegInf) && unchanged(incidences[randIncIdx]) && unchanged(incidences[randIncIdx].attachmentTimes)
    ensures |incidences| > 0 && HasOtherLowerBound(old(incidences[randIncIdx].attachmentTimes.Length), randAttIdx) ==>
              var inc := incidences[randIncIdx];
              var a := inc.attachmentTimes;
              var before := old(inc.attachmentTimes[..]);
              var minIdx := minIdxDraws[FirstOutside(minIdxDraws, {randAttIdx})];
              if before[minIdx] >= before[minIdx + 1] then
                r.Error? && unchanged(inc) && unchanged(a)
              else
                var newTime := RandomNewTime(before, minIdx, draw);
                a == old(inc.attachmentTimes) &&
                a[..] == before[randAttIdx := newTime] &&
                inc.oldTimeOfChangedCopy == before[randAttIdx] && inc.newTimeOfChangedCopy == newTime &&
                inc.attachmentTimesListChanged && inc.currentAttachmentTimeIndex == a.Length &&
                inc.count == old(inc.count) &&
                r.Ok? && r.value == Fin(ln(before[minIdx + 1] - before[minIdx])
                                        - ln(before[Above(randAttIdx, a.Length)] - before[Below(randAttIdx)]))
  {
    if |incidences| == 0 {
      return Ok(Fin(0.0));
    }
    var randIncidence := incidences[randIncIdx];
    var attachmentTimes := randIncidence.attachmentTimes;
    var n := attachmentTimes.Length;
    if n < 2 {
      // nextInt(0) for the selected index or for the lower bound
      return Error("IllegalArgumentException: bound must be positive");
    }
    if !HasOtherLowerBound(n, randAttIdx) {
      // the source's redraw loop never ends here
      return Ok(NegInf);
    }

    var minIdx := DrawLowerBound(minIdxDraws, randAttIdx);
    var maxIdx := minIdx + 1;
    var tMin := attachmentTimes[minIdx];
    var tMax := attachmentTimes[maxIdx];
    if tMin >= tMax {
      // nextDouble(tMin, tMax)
      return Error("IllegalArgumentException: bound must be greater than origin");
    }

    var newTime := draw;
    if newTime in attachmentTimes[..] {
      newTime := (tMax + tMin) / 2.0;
    }

    var oldMinIdx := if randAttIdx == 0 then 0 else randAttIdx - 1;
    var oldMaxIdx := if randAttIdx == n - 1 then n - 1 else randAttIdx + 1;
    var oldTmin := attachmentTimes[oldMinIdx];
    var oldTmax := attachmentTimes[oldMaxIdx];

    Reattach(randIncidence, randAttIdx, newTime);

    r := Ok(Fin(-ln(oldTmax - oldTmin) + ln(tMax - tMin)));
  }

  /**
   * The common end of both reattachment moves: the selected slot is
   * overwritten in place, its old and new value go to the changed-copy
   * markers, and the list is handed back to the incidence, which marks it
   * changed and moves its cursor to the end.
   */
  method Reattach(inc: QuasiSpeciesIncidence, randAttIdx: int, newTime: real)
    requires 0 <= randAttIdx < inc.attachmentTimes.Length
    modifies inc, inc.attachmentTimes
    ensures inc.attachmentTimes == old(inc.attachmentTimes)
    ensures inc.attachmentTimes[..] == old(inc.attachmentTimes[..])[randAttIdx := newTime]
    ensures inc.oldTimeOfChangedCopy == old(inc.attachmentTimes[randAttIdx]) && inc.newTimeOfChangedCopy == newTime
    ensures inc.attachmentTimesListChanged && inc.currentAttachmentTimeIndex == inc.attachmentTimes.Length
    ensures inc.count == old(inc.count)
  {
    var attachmentTimes := inc.attachmentTimes;
    inc.SetOldTimeOfChangedCopy(attachmentTimes[randAttIdx]);
    attachmentTimes[randAttIdx] := newTime;
    inc.SetNewTimeOfChangedCopy(newTime);
    inc.SetAttachmentTimes(attachmentTimes);
  }

  /** The redraw loop of the random reattachment: the first lower-bound draw that is not the selected index. */
  method DrawLowerBound(minIdxDraws: seq<int>, randAttIdx: int) returns (minIdx: int)
    requires exists j :: 0 <= j < |minIdxDraws| && minIdxDraws[j] !in {randAttIdx}
    ensures minIdx == minIdxDraws[FirstOutside(minIdxDraws, {randAttIdx})]
  {
    var d := 0;
    while minIdxDraws[d] == randAttIdx
      invariant 0 <= d <= FirstOutside(minIdxDraws, {randAttIdx})
      decreases FirstOutside(minIdxDraws, {randAttIdx}) - d
    {
      d := d + 1;
    }
    minIdx := minIdxDraws[d];
  }

  /**
   * The random reattachment does not keep a sorted list sorted: moving the
   * first of [1, 2, 3] into the interval [2, 3) puts 2.5 before 2.
   */
  lemma RandomMoveCanBreakOrder()
    ensures StrictlyAscending([1.0, 2.0, 3.0])
    ensures !StrictlyAscending([1.0, 2.0, 3.0][0 := RandomNewTime([1.0, 2.0, 3.0], 1, 2.5)])
  {
    var s := [1.0, 2.0, 3.0];
    assert 2.5 !in s;
    assert s[0 := 2.5][0] > s[0 := 2.5][1];
  }

  /**
   * On the list [2.5, 2, 3] that move leaves behind, the interval from slot 0
   * to slot 1 is empty: a random move that draws lower bound 0, and a uniform
   * move of slot 0, both ask nextDouble for a time in [2.5, 2), which throws.
   */
  lemma RandomMoveThenEmptyInterval()
    ensures var s := [1.0, 2.0, 3.0][0 := RandomNewTime([1.0, 2.0, 3.0], 1, 2.5)];
            s == [2.5, 2.0, 3.0] && s[0] >= s[1] && s[Below(0)] >= s[Above(0, |s|)]
  {
    assert 2.5 !in [1.0, 2.0, 3.0];
  }

  /** t inserted into a list in front of the first element not below it. */
  function InsertInOrder(s: seq<real>, t: real): (r: seq<real>)
    ensures multiset(r) == multiset(s) + multiset{t}
  {
    if |s| == 0 || t <= s[0] then [t] + s
    else
      assert s == [s[0]] + s[1..];
      [s[0]] + InsertInOrder(s[1..], t)
  }

  /** Inserting a new time into a strictly ascending list keeps it strictly ascending. */
  lemma {:induction false} InsertInOrderAscending(s: seq<real>, t: real)
    requires StrictlyAscending(s) && t !in s
    ensures StrictlyAscending(InsertInOrder(s, t))
  {
    if |s| == 0 || t <= s[0] {
      if |s| > 0 {
        assert t < s[0];
      }
    } else {
      var tail := InsertInOrder(s[1..], t);
      InsertInOrderAscending(s[1..], t);
      forall x | x in tail
        ensures s[0] < x
      {
        assert x in multiset(tail);
        if x != t {
          assert x in multiset(s[1..]);
          var k :| 0 <= k < |s[1..]| && s[1..][k] == x;
          assert s[k + 1] == x;
        }
      }
      var r := [s[0]] + tail;
      forall i, j | 0 <= i < j < |r|
        ensures r[i] < r[j]
      {
        if i == 0 {
          assert r[j] == tail[j - 1] && tail[j - 1] in tail;
        } else {
          assert r[i] == tail[i - 1] && r[j] == tail[j - 1];
        }
      }
    }
  }

  /**
   * The random reattachment as the ordering of the list evidently requires:
   * the time in slot i is replaced by t, which is then moved to its place in
   * the order.
   */
  function ReplaceInOrder(s: seq<real>, i: int, t: real): seq<real>
    requires 0 <= i < |s|
  {
    InsertInOrder(s[..i] + s[i + 1..], t)
  }

  /**
   * With the time re-sorted into place, the random reattachment keeps a
   * strictly ascending list strictly ascending, of the same length, so every
   * interval a later move draws from is non-empty.
   */
  lemma {:induction false} RandomMoveInOrderKeepsOrder(s: seq<real>, randAttIdx: int, minIdx: int, draw: real)
    requires StrictlyAscending(s) && 0 <= randAttIdx < |s| && 0 <= minIdx < |s| - 1
    requires s[minIdx] <= draw < s[minIdx + 1]
    ensures var r := ReplaceInOrder(s, randAttIdx, RandomNewTime(s, minIdx, draw));
            StrictlyAscending(r) && |r| == |s| &&
            (|r| >= 2 ==> forall i :: 0 <= i < |r| ==> r[Below(i)] < r[Above(i, |r|)])
  {
    var t := RandomNewTime(s, minIdx, draw);
    assert t !in s by {
      if draw in s {
        forall k | 0 <= k < |s|
          ensures s[k] != t
        {
          if k <= minIdx {
            assert s[k] <= s[minIdx];
          } else {
            assert s[minIdx + 1] <= s[k];
          }
        }
      }
    }
    var rest := s[..randAttIdx] + s[randAttIdx + 1..];
    assert |rest| == |s| - 1;
    forall i, j | 0 <= i < j < |rest|
      ensures rest[i] < rest[j]
    {
      var i' := if i < randAttIdx then i else i + 1;
      var j' := if j < randAttIdx then j else j + 1;
      assert rest[i] == s[i'] && rest[j] == s[j'];
    }
    forall k | 0 <= k < |rest|
      ensures rest[k] != t
    {
      assert rest[k] == s[if k < randAttIdx then k else k + 1];
    }
    InsertInOrderAscending(rest, t);
    var r := InsertInOrder(rest, t);
    assert |multiset(r)| == |multiset(rest)| + 1;
  }

  // ---------------------------------------------------------------------------
  // Local uniform move
  // ---------------------------------------------------------------------------

  /** What the draws of one uniform move must satisfy to get past the redraw loop. */
  ghost predicate UniformDrawsValid(s: seq<real>, randAttIdx: int, draws: seq<real>)
  {
    0 <= randAttIdx < |s| &&
    (forall j :: 0 <= j < |draws| ==> s[Below(randAttIdx)] <= draws[j] < s[Above(randAttIdx, |s|)]) &&
    (exists j :: 0 <= j < |draws| && draws[j] !in Values(s))
  }

  /**
   * proposal() of the uniform operator. With no incidences it returns 0 and
   * changes nothing. An empty list makes nextInt throw, and so does
   * nextDouble when the interval between the neighbours of time `randAttIdx`
   * (indices clamped at both ends) is empty, as it always is for a list of one
   * time; an exception leaves the incidence untouched. Otherwise the operator
   * redraws uniformly in that interval until the draw is not a time already in
   * the list, overwrites that slot in place, records the old and new value in
   * the changed-copy markers, marks the list changed and returns 0 (a
   * symmetric proposal).
   */
  method AttachmentUniformProposal(incidences: seq<QuasiSpeciesIncidence>, randIncIdx: int, randAttIdx: int,
                                   draws: seq<real>)
    returns (r: Result<Ext>)
    requires |incidences| > 0 ==> 0 <= randIncIdx < |incidences|
    requires |incidences| > 0 ==>
               var s := incidences[randIncIdx].attachmentTimes[..];
               (|s| > 0 ==> 0 <= randAttIdx < |s|) &&
               (|s| > 0 && s[Below(randAttIdx)] < s[Above(randAttIdx, |s|)] ==> UniformDrawsValid(s, randAttIdx, draws))
    modifies if |incidences| > 0 then {incidences[randIncIdx], incidences[randIncIdx].attachmentTimes} else {}
    ensures |incidences| == 0 ==> r == Ok(Fin(0.0))
    ensures |incidences| > 0 ==>
              var inc := incidences[randIncIdx];
              var a := inc.attachmentTimes;
              var before := old(inc.attachmentTimes[..]);
              if |before| == 0 || before[Below(randAttIdx)] >= before[Above(randAttIdx, |before|)] then
                r.Error? && unchanged(inc) && unchanged(a)
              else
                var newTime := draws[FirstOutside(draws, Values(before))];
                r == Ok(Fin(0.0)) &&
                a == old(inc.attachmentTimes) &&
                a[..] == before[randAttIdx := newTime] &&
                inc.oldTimeOfChangedCopy == before[randAttIdx] && inc.newTimeOfChangedCopy == newTime &&
                inc.attachmentTimesListChanged && inc.currentAttachmentTimeIndex == a.Length &&
                inc.count == old(inc.count)
  {
    if |incidences| == 0 {
      return Ok(Fin(0.0));
    }
    var randIncidence := incidences[randIncIdx];
    var attachmentTimes := randIncidence.attachmentTimes;
    var n := attachmentTimes.Length;
    if n == 0 {
      // nextInt(0) for the selected index
      return Error("IllegalArgumentException: bound must be positive");
    }

    var minIdx := if randAttIdx == 0 then 0 else randAttIdx - 1;
    var maxIdx := if randAttIdx == n - 1 then n - 1 else randAttIdx + 1;
    if attachmentTimes[minIdx] >= attachmentTimes[maxIdx] {
      // the first nextDouble(lower, upper)
      return Error("IllegalArgumentException: bound must be greater than origin");
    }

    ghost var values := Values(attachmentTimes[..]);
    var d := 0;
    while draws[d] in attachmentTimes[..]
      invariant 0 <= d <= FirstOutside(draws, values)
      decreases FirstOutside(draws, values) - d
    {
      d := d + 1;
    }
    var newTime := draws[d];

    Reattach(randIncidence, randAttIdx, newTime);

    r := Ok(Fin(0.0));
  }

  /**
   * The uniform move keeps a strictly ascending list of at least two times
   * strictly ascending: the accepted draw lies between the neighbours and
   * differs from every time in the list.
   */
  lemma {:induction false} UniformMovePreservesOrder(s: seq<real>, randAttIdx: int, newTime: real)
    requires StrictlyAscending(s) && |s| >= 2 && 0 <= randAttIdx < |s|
    requires s[Below(randAttIdx)] <= newTime < s[Above(randAttIdx, |s|)]
    requires newTime !in Values(s)
    ensures StrictlyAscending(s[randAttIdx := newTime])
  {
    var i := randAttIdx;
    var r := s[i := newTime];
    assert newTime != s[Below(i)] by {
      assert s[Below(i)] in Values(s);
    }
    if i > 0 {
      assert s[i - 1] < newTime;
    }
    if i < |s| - 1 {
      assert newTime < s[i + 1];
    }
    forall p, q | 0 <= p < q < |r| ensures r[p] < r[q] {
      if p == i {
        assert q >= i + 1 && s[i + 1] <= s[q];
      } else if q == i {
        assert p <= i - 1 && s[p] <= s[i - 1];
      }
    }
  }

  /** The time the uniform move accepts lies in the neighbour interval and is new to the list. */
  lemma UniformNewTimeBounds(s: seq<real>, randAttIdx: int, draws: seq<real>)
    requires UniformDrawsValid(s, randAttIdx, draws)
    ensures var t := draws[FirstOutside(draws, Values(s))];
            s[Below(randAttIdx)] <= t < s[Above(randAttIdx, |s|)] && t !in s
  {
    var t := draws[FirstOutside(draws, Values(s))];
    assert t !in Values(s);
  }

  // ---------------------------------------------------------------------------
  // A record of a single time
  // ---------------------------------------------------------------------------

  /**
   * Both reattachment moves fault on a record of one time: the random move
   * asks nextInt for a lower bound below 0, the uniform move asks nextDouble
   * for a time in [t, t). Neither rejects the move with a ratio of 0 or -inf.
   */
  method SingleTimeRecordFaults(inc: QuasiSpeciesIncidence, minIdxDraws: seq<int>, draw: real, draws: seq<real>,
                                ln: real -> real)
    returns (random: Result<Ext>, uniform: Result<Ext>)
    requires inc.attachmentTimes.Length == 1
    modifies inc, inc.attachmentTimes
    ensures random.Error? && uniform.Error?
    ensures unchanged(inc) && unchanged(inc.attachmentTimes)
  {
    random := AttachmentRandomProposal([inc], 0, 0, minIdxDraws, draw, ln);
    uniform := AttachmentUniformProposal([inc], 0, 0, draws);
  }

  /**
   * The random reattachment with a one-time record rejected with negative
   * infinity instead of faulting: such a record has no interval to move a
   * time into, so the record is left untouched. Every other record gets the
   * source's move.
   */
  method RandomProposalRejectingSingle(incidences: seq<QuasiSpeciesIncidence>, randIncIdx: int, randAttIdx: int,
                                       minIdxDraws: seq<int>, draw: real, ln: real -> real)
    returns (r: Result<Ext>)
    requires |incidences| > 0 ==> 0 <= randIncIdx < |incidences|
    requires |incidences| > 0 ==>
               var a := incidences[randIncIdx].attachmentTimes;
               (a.Length > 0 ==> 0 <= randAttIdx < a.Length) &&
               (HasOtherLowerBound(a.Length, randAttIdx) ==>
                  RandomDrawsValid(a.Length, randAttIdx, minIdxDraws) &&
                  var minIdx := minIdxDraws[FirstOutside(minIdxDraws, {randAttIdx})];
                  a[minIdx] < a[minIdx + 1] ==> a[minIdx] <= draw < a[minIdx + 1])
    modifies if |incidences| > 0 then {incidences[randIncIdx], incidences[randIncIdx].attachmentTimes} else {}
    ensures |incidences| == 0 ==> r == Ok(Fin(0.0))
    ensures |incidences| > 0 && old(incidences[randIncIdx].attachmentTimes.Length) == 1 ==>
              r == Ok(NegInf) && unchanged(incidences[randIncIdx]) && unchanged(incidences[randIncIdx].attachmentTimes)
    ensures |incidences| > 0 && old(incidences[randIncIdx].attachmentTimes.Length) == 0 ==>
              r.Error? && unchanged(incidences[randIncIdx]) && unchanged(incidences[randIncIdx].attachmentTimes)
    ensures |incidences| > 0 && old(incidences[randIncIdx].attachmentTimes.Length) >= 2 &&
            !HasOtherLowerBound(old(incidences[randIncIdx].attachmentTimes.Length), randAttIdx) ==>
              r == Ok(NegInf) && unchanged(incidences[randIncIdx]) && unchanged(incidences[randIncIdx].attachmentTimes)
    ensures |incidences| > 0 && HasOtherLowerBound(old(incidences[randIncIdx].attachmentTimes.Length), randAttIdx) ==>
              var inc := incidences[randIncIdx];
              var a := inc.attachmentTimes;
              var before := old(inc.attachmentTimes[..]);
              var minIdx := minIdxDraws[FirstOutside(minIdxDraws, {randAttIdx})];
              if before[minIdx] >= before[minIdx + 1] then
                r.Error? && unchanged(inc) && unchanged(a)
              else
                var newTime := RandomNewTime(before, minIdx, draw);
                a == old(inc.attachmentTimes) &&
                a[..] == before[randAttIdx := newTime] &&
                inc.oldTimeOfChangedCopy == before[randAttIdx] && inc.newTimeOfChangedCopy == newTime &&
                inc.attachmentTimesListChanged && inc.currentAttachmentTimeIndex == a.Length &&
                inc.count == old(inc.count) &&
                r.Ok? && r.value == Fin(ln(before[minIdx + 1] - before[minIdx])
                                        - ln(before[Above(randAttIdx, a.Length)] - before[Below(randAttIdx)]))
  {
    if |incidences| > 0 && incidences[randIncIdx].attachmentTimes.Length == 1 {
      return Ok(NegInf);
    }
    r := AttachmentRandomProposal(incidences, randIncIdx, randAttIdx, minIdxDraws, draw, ln);
  }

  /**
   * The local uniform move with a one-time record rejected with negative
   * infinity instead of faulting: the record is left untouched. Every other
   * record gets the source's move.
   */
  method UniformProposalRejectingSingle(incidences: seq<QuasiSpeciesIncidence>, randIncIdx: int, randAttIdx: int,
                                        draws: seq<real>)
    returns (r: Result<Ext>)
    requires |incidences| > 0 ==> 0 <= randIncIdx < |incidences|
    requires |incidences| > 0 ==>
               var s := incidences[randIncIdx].attachmentTimes[..];
               (|s| > 0 ==> 0 <= randAttIdx < |s|) &&
               (|s| > 0 && s[Below(randAttIdx)] < s[Above(randAttIdx, |s|)] ==> UniformDrawsValid(s, randAttIdx, draws))
    modifies if |incidences| > 0 then {incidences[randIncIdx], incidences[randIncIdx].attachmentTimes} else {}
    ensures |incidences| == 0 ==> r == Ok(Fin(0.0))
    ensures |incidences| > 0 && old(incidences[randIncIdx].attachmentTimes.Length) == 1 ==>
              r == Ok(NegInf) && unchanged(incidences[randIncIdx]) && unchanged(incidences[randIncIdx].attachmentTimes)
    ensures |incidences| > 0 && old(incidences[randIncIdx].attachmentTimes.Length) != 1 ==>
              var inc := incidences[randIncIdx];
              var a := inc.attachmentTimes;
              var before := old(inc.attachmentTimes[..]);
              if |before| == 0 || before[Below(randAttIdx)] >= before[Above(randAttIdx, |before|)] then
                r.Error? && unchanged(inc) && unchanged(a)
              else
                var newTime := draws[FirstOutside(draws, Values(before))];
                r == Ok(Fin(0.0)) &&
                a == old(inc.attachmentTimes) &&
                a[..] == before[randAttIdx := newTime] &&
                inc.oldTimeOfChangedCopy == before[randAttIdx] && inc.newTimeOfChangedCopy == newTime &&
                inc.attachmentTimesListChanged && inc.currentAttachmentTimeIndex == a.Length &&
                inc.count == old(inc.count)
  {
    if |incidences| > 0 && incidences[randIncIdx].attachmentTimes.Length == 1 {
      return Ok(NegInf);
    }
    r := AttachmentUniformProposal(incidences, randIncIdx, randAttIdx, draws);
  }

  // ---------------------------------------------------------------------------
  // Affine scale
  // ---------------------------------------------------------------------------

  /** The scale factor u * s + (1 - u) / s drawn by the scale operator. */
  function ScaleFactor(u: real, s: real): real
    requires s != 0.0
  {
    u * s + (1.0 - u) / s
  }

  /**
   * For u in [0, 1] and a bound s >= 1 the factor lies in [1/s, s], the range
   * the operator documents; in particular it is positive.
   */
  lemma ScaleFactorInRange(u: real, s: real)
    requires 0.0 <= u <= 1.0 && s >= 1.0
    ensures 1.0 / s <= ScaleFactor(u, s) <= s
    ensures ScaleFactor(u, s) > 0.0
  {
    var inv := 1.0 / s;
    assert inv * s == 1.0;
    assert 0.0 < inv <= 1.0;
    assert inv <= s by {
      assert inv <= 1.0 <= s;
    }
    // f is the convex combination u * s + (1 - u) * inv of the two bounds
    assert (1.0 - u) / s == (1.0 - u) * inv;
    assert u * s >= u * inv;
    assert (1.0 - u) * inv <= (1.0 - u) * s;
  }

  /**
   * The operator does not check that the bound is at least 1: for any
   * positive s the factor lies between s and 1/s, whichever is smaller,
   * and is positive.
   */
  lemma ScaleFactorBetween(u: real, s: real)
    requires 0.0 <= u <= 1.0 && s > 0.0
    ensures ScaleFactor(u, s) > 0.0
    ensures s <= 1.0 ==> s <= ScaleFactor(u, s) <= 1.0 / s
    ensures s >= 1.0 ==> 1.0 / s <= ScaleFactor(u, s) <= s
  {
    var inv := 1.0 / s;
    assert inv * s == 1.0;
    assert inv > 0.0;
    // f is the convex combination u * s + (1 - u) * inv of the two bounds
    assert (1.0 - u) / s == (1.0 - u) * inv;
    if s <= 1.0 {
      assert s <= inv by {
        assert s * s <= s * 1.0;
        assert s * s * inv <= 1.0 * inv;
        assert s * s * inv == s;
      }
      assert u * s <= u * inv;
      assert (1.0 - u) * s <= (1.0 - u) * inv;
    } else {
      ScaleFactorInRange(u, s);
    }
  }

  /** Every time multiplied by f. */
  function Scaled(s: seq<real>, f: real): (r: seq<real>)
    ensures |r| == |s|
  {
    seq(|s|, i requires 0 <= i < |s| => s[i] * f)
  }

  /**
   * The rejection test as written: the SCALED first time below the sampling
   * time, or the UNSCALED last time at or above the origin.
   */
  predicate ScaleRejected(s: seq<real>, f: real, samplingTime: real, origin: real)
    requires |s| > 0
  {
    s[0] * f < samplingTime || s[|s| - 1] >= origin
  }

  /**
   * proposal() of the scale operator. With no incidences it returns 0 and
   * changes nothing. An empty list makes get(0) throw. Otherwise, with
   * f = u * s + (1 - u) / s, it returns negative infinity and leaves the list
   * untouched when ScaleRejected holds, and otherwise multiplies every time by
   * f in place, adding ln(f) to the ratio once per time.
   */
  method ScaleProposal(incidences: seq<QuasiSpeciesIncidence>, randIncIdx: int, u: real, scaleFactor: real,
                       origin: real, ln: real -> real)
    returns (r: Result<Ext>)
    requires scaleFactor != 0.0
    requires |incidences| > 0 ==> 0 <= randIncIdx < |incidences|
    modifies if |incidences| > 0 then {incidences[randIncIdx].attachmentTimes} else {}
    ensures |incidences| == 0 ==> r == Ok(Fin(0.0))
    ensures |incidences| > 0 && old(incidences[randIncIdx].attachmentTimes.Length) == 0 ==>
              r.Error? && incidences[randIncIdx].attachmentTimes[..] == old(incidences[randIncIdx].attachmentTimes[..])
    ensures |incidences| > 0 && old(incidences[randIncIdx].attachmentTimes.Length) > 0 ==>
              var inc := incidences[randIncIdx];
              var before := old(inc.attachmentTimes[..]);
              var f := ScaleFactor(u, scaleFactor);
              if ScaleRejected(before, f, inc.samplingTime, origin) then
                r == Ok(NegInf) && inc.attachmentTimes[..] == before
              else
                r.Ok? && r.value == Fin(|before| as real * ln(f)) &&
                inc.attachmentTimes[..] == Scaled(before, f)
  {
    if |incidences| == 0 {
      return Ok(Fin(0.0));
    }
    var randIncidence := incidences[randIncIdx];
    var attachmentTimes := randIncidence.attachmentTimes;

    var f := u * scaleFactor + (1.0 - u) / scaleFactor;
    var logf := ln(f);

    if attachmentTimes.Length == 0 {
      // attachmentTimes.get(0)
      return Error("IndexOutOfBoundsException: Index 0 out of bounds for length 0");
    }
    if attachmentTimes[0] * f < randIncidence.samplingTime ||
       attachmentTimes[attachmentTimes.Length - 1] >= origin {
      return Ok(NegInf);
    }

    var ratio := ScaleTimes(attachmentTimes, f, logf);
    r := Ok(Fin(ratio));
  }

  /** The loop of the scale operator: every time multiplied by f, ln(f) added once per time. */
  method ScaleTimes(attachmentTimes: array<real>, f: real, logf: real) returns (ratio: real)
    modifies attachmentTimes
    ensures attachmentTimes[..] == Scaled(old(attachmentTimes[..]), f)
    ensures ratio == |old(attachmentTimes[..])| as real * logf
  {
    ratio := 0.0;
    var i := 0;
    while i < attachmentTimes.Length
      invariant 0 <= i <= attachmentTimes.Length
      invariant forall j :: 0 <= j < i ==> attachmentTimes[j] == old(attachmentTimes[j]) * f
      invariant forall j :: i <= j < attachmentTimes.Length ==> attachmentTimes[j] == old(attachmentTimes[j])
      invariant ratio == i as real * logf
    {
      attachmentTimes[i] := attachmentTimes[i] * f;
      ratio := ratio + logf;
      i := i + 1;
    }
    ghost var before := old(attachmentTimes[..]);
    assert forall j :: 0 <= j < attachmentTimes.Length ==> attachmentTimes[..][j] == Scaled(before, f)[j];
  }

  /** With a positive factor, scaling keeps a strictly ascending list strictly ascending. */
  lemma ScalePreservesOrder(s: seq<real>, f: real)
    requires StrictlyAscending(s) && f > 0.0
    ensures StrictlyAscending(Scaled(s, f))
  {
    forall i, j | 0 <= i < j < |s| ensures Scaled(s, f)[i] < Scaled(s, f)[j] {
      MulPositiveMono(s[i], s[j], f);
    }
  }

  lemma MulPositiveMono(x: real, y: real, f: real)
    requires x < y && f > 0.0
    ensures x * f < y * f
  {
  }

  /**
   * The operator's comment says it aborts when the scaled times would fall
   * below the sampling time or reach the origin, but the test reads the
   * unscaled last time: [1, 2] scaled by 2 with origin 3 is accepted although
   * its last time becomes 4.
   */
  lemma ScaleAcceptsPastOrigin()
    ensures !ScaleRejected([1.0, 2.0], 2.0, 0.5, 3.0)
    ensures Scaled([1.0, 2.0], 2.0)[1] >= 3.0
  {
  }

  /** The rejection test the comment describes: every scaled time in [samplingTime, origin). */
  predicate ScaleRejectedIntended(s: seq<real>, f: real, samplingTime: real, origin: real)
    requires |s| > 0
  {
    s[0] * f < samplingTime || s[|s| - 1] * f >= origin
  }

  /**
   * With the intended test, an accepted scale of an ascending list by a
   * positive factor leaves every time in [samplingTime, origin).
   */
  lemma {:induction false} ScaleIntendedKeepsBounds(s: seq<real>, f: real, samplingTime: real, origin: real)
    requires |s| > 0 && StrictlyAscending(s) && f > 0.0
    requires !ScaleRejectedIntended(s, f, samplingTime, origin)
    ensures forall i :: 0 <= i < |s| ==> samplingTime <= Scaled(s, f)[i] < origin
  {
    ScalePreservesOrder(s, f);
    var r := Scaled(s, f);
    forall i | 0 <= i < |s| ensures samplingTime <= r[i] < origin {
      if i > 0 {
        assert r[0] < r[i];
      }
      if i < |s| - 1 {
        assert r[i] < r[|s| - 1];
      }
    }
  }

  /** initAndValidate of the scale operator: a missing scale factor is an error. */
  function ValidateScaleFactor(scaleFactor: Option<real>): (r: Result<real>)
    ensures r.Ok? <==> scaleFactor.Some?
    ensures r.Ok? ==> r.value == scaleFactor.value
  {
    match scaleFactor
    case None => Error("You need to input valid scaleFactorInput value. It is set to null at the moment")
    case Some(s) => Ok(s)
  }
}
