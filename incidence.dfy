/**
 * The record of one unsequenced incidence case (piqmee.tree.QuasiSpeciesIncidence):
 * a fixed sampling time, a fixed-size array of attachment times with a fill
 * cursor, a multiplicity count, a "list changed" flag and the pair of markers
 * in which the operators leave the old and new value of a single moved time.
 */
module Incidence {
  import opened Outcomes

  const INT_MIN: int := -0x8000_0000
  const INT_MAX: int := 0x7fff_ffff

  predicate IsInt32(x: int) { INT_MIN <= x <= INT_MAX }

  /** Java's 32-bit two's-complement wrap-around of an int result. */
  function Wrap32(x: int): (r: int)
    ensures IsInt32(r)
    ensures IsInt32(x) ==> r == x
  {
    (x - INT_MIN) % 0x1_0000_0000 + INT_MIN
  }

  /** Every earlier element is strictly smaller than every later one. */
  predicate StrictlyAscending(s: seq<real>)
  {
    forall i, j :: 0 <= i < j < |s| ==> s[i] < s[j]
  }

  /** The marker value (-1) the source uses for "no single time was changed". */
  const UNCHANGED_MARKER: real := -1.0

  class QuasiSpeciesIncidence {
    const samplingTime: real
    var attachmentTimes: array<real>
    /** index of the next empty slot of attachmentTimes */
    var currentAttachmentTimeIndex: int
    var attachmentTimesListChanged: bool
    var count: int
    var oldTimeOfChangedCopy: real
    var newTimeOfChangedCopy: real

    /** The cursor never runs past the array; the count is a Java int. */
    ghost predicate Valid()
      reads this
    {
      0 <= currentAttachmentTimeIndex <= attachmentTimes.Length && IsInt32(count)
    }

    /** A new incidence: `count` zeroed slots, nothing filled, nothing changed. */
    constructor (samplingTime: real, count: int)
      requires 0 <= count <= INT_MAX
      ensures Valid() && fresh(attachmentTimes)
      ensures this.samplingTime == samplingTime && this.count == count
      ensures attachmentTimes.Length == count
      ensures forall i :: 0 <= i < count ==> attachmentTimes[i] == 0.0
      ensures currentAttachmentTimeIndex == 0 && !attachmentTimesListChanged
      ensures oldTimeOfChangedCopy == UNCHANGED_MARKER && newTimeOfChangedCopy == UNCHANGED_MARKER
    {
      this.samplingTime := samplingTime;
      this.count := count;
      attachmentTimes := new real[count](_ => 0.0);
      currentAttachmentTimeIndex := 0;
      attachmentTimesListChanged := false;
      oldTimeOfChangedCopy := UNCHANGED_MARKER;
      newTimeOfChangedCopy := UNCHANGED_MARKER;
    }

    /**
     * The copy constructor: scalars and flag copied, the array cloned (so the
     * copy never aliases the original), the changed-copy markers NOT copied.
     */
    constructor Copy(other: QuasiSpeciesIncidence)
      requires other.Valid()
      ensures Valid() && fresh(attachmentTimes)
      ensures samplingTime == other.samplingTime && count == other.count
      ensures attachmentTimes[..] == other.attachmentTimes[..]
      ensures currentAttachmentTimeIndex == other.currentAttachmentTimeIndex
      ensures attachmentTimesListChanged == other.attachmentTimesListChanged
      ensures oldTimeOfChangedCopy == UNCHANGED_MARKER && newTimeOfChangedCopy == UNCHANGED_MARKER
    {
      var src := other.attachmentTimes;
      samplingTime := other.samplingTime;
      attachmentTimes := new real[src.Length](i requires 0 <= i < src.Length reads src => src[i]);
      attachmentTimesListChanged := other.attachmentTimesListChanged;
      currentAttachmentTimeIndex := other.currentAttachmentTimeIndex;
      count := other.count;
      oldTimeOfChangedCopy := UNCHANGED_MARKER;
      newTimeOfChangedCopy := UNCHANGED_MARKER;
    }

    function GetAttachmentTimes(): array<real>
      reads this
    {
      attachmentTimes
    }

    function IsAttachmentTimesListChanged(): bool
      reads this
    {
      attachmentTimesListChanged
    }

    function GetCount(): int
      reads this
    {
      count
    }

    function GetOldTimeOfChangedCopy(): real
      reads this
    {
      oldTimeOfChangedCopy
    }

    function GetNewTimeOfChangedCopy(): real
      reads this
    {
      newTimeOfChangedCopy
    }

    /** Hands out the live array (no copy) and clears the changed flag. */
    method GetAttachmentTimesAndReset() returns (a: array<real>)
      modifies this`attachmentTimesListChanged
      ensures a == attachmentTimes && !attachmentTimesListChanged
    {
      attachmentTimesListChanged := false;
      a := attachmentTimes;
    }

    /** Adopts the given array (aliasing it), marks it full and changed. */
    method SetAttachmentTimes(a: array<real>)
      modifies this`attachmentTimes, this`currentAttachmentTimeIndex, this`attachmentTimesListChanged
      ensures attachmentTimes == a && currentAttachmentTimeIndex == a.Length
      ensures attachmentTimesListChanged
      ensures IsInt32(count) ==> Valid()
    {
      attachmentTimes := a;
      currentAttachmentTimeIndex := a.Length;
      attachmentTimesListChanged := true;
    }

    /**
     * Stores t in the slot under the cursor and advances it, but only while the
     * cursor is below the LAST slot: the last slot is never filled this way.
     */
    method AddAttachmentTime(t: real)
      requires Valid()
      modifies this`currentAttachmentTimeIndex, attachmentTimes
      ensures Valid() && attachmentTimes == old(attachmentTimes)
      ensures old(currentAttachmentTimeIndex) < attachmentTimes.Length - 1 ==>
                currentAttachmentTimeIndex == old(currentAttachmentTimeIndex) + 1 &&
                attachmentTimes[..] == old(attachmentTimes[..])[old(currentAttachmentTimeIndex) := t]
      ensures old(currentAttachmentTimeIndex) >= attachmentTimes.Length - 1 ==>
                currentAttachmentTimeIndex == old(currentAttachmentTimeIndex) &&
                attachmentTimes[..] == old(attachmentTimes[..])
      ensures attachmentTimes.Length > 0 ==>
                attachmentTimes[attachmentTimes.Length - 1] == old(attachmentTimes[attachmentTimes.Length - 1])
      ensures old(currentAttachmentTimeIndex) < attachmentTimes.Length ==>
                currentAttachmentTimeIndex < attachmentTimes.Length
    {
      if currentAttachmentTimeIndex < attachmentTimes.Length - 1 {
        attachmentTimes[currentAttachmentTimeIndex] := t;
        currentAttachmentTimeIndex := currentAttachmentTimeIndex + 1;
      }
    }

    method SetCount(c: int)
      requires IsInt32(c)
      modifies this`count
      ensures count == c
    {
      count := c;
    }

    /** `count += c` on Java ints, wrapping around on overflow. */
    method AddCount(c: int)
      requires IsInt32(c)
      modifies this`count
      ensures count == Wrap32(old(count) + c)
    {
      count := Wrap32(count + c);
    }

    method SetOldTimeOfChangedCopy(t: real)
      modifies this`oldTimeOfChangedCopy
      ensures oldTimeOfChangedCopy == t
    {
      oldTimeOfChangedCopy := t;
    }

    method SetNewTimeOfChangedCopy(t: real)
      modifies this`newTimeOfChangedCopy
      ensures newTimeOfChangedCopy == t
    {
      newTimeOfChangedCopy := t;
    }

    /**
     * Fills the slots from the cursor up to `count` in equal steps of
     * (samplingTime - lowerBound) / (count - cursor). An empty record starts
     * at `step` itself (not at lowerBound + step) and always fills slot 0,
     * whatever `count` is; a partly filled one continues from its last
     * filled slot, and does nothing when the cursor is already at or beyond
     * `count`. Running past the end of the array is the
     * ArrayIndexOutOfBoundsException, after the slots before the end are
     * filled; on an empty array the cursor has already moved to 1.
     */
    method GenerateAttachmentTimes(lowerBound: real) returns (r: Result<()>)
      requires Valid()
      requires currentAttachmentTimeIndex == 0 ==> count != 0
      modifies this`currentAttachmentTimeIndex, attachmentTimes
      ensures attachmentTimes == old(attachmentTimes)
      ensures var c0 := old(currentAttachmentTimeIndex);
              r.Error? <==> (c0 == 0 || c0 < count) && FillEnd(c0, count) > attachmentTimes.Length
      ensures var c0 := old(currentAttachmentTimeIndex);
              c0 != 0 && c0 >= count ==>
                currentAttachmentTimeIndex == c0 && attachmentTimes[..] == old(attachmentTimes[..])
      ensures var c0 := old(currentAttachmentTimeIndex);
              (c0 == 0 || c0 < count) && c0 == attachmentTimes.Length ==>
                currentAttachmentTimeIndex == (if c0 == 0 then 1 else c0) &&
                attachmentTimes[..] == old(attachmentTimes[..])
      ensures var c0 := old(currentAttachmentTimeIndex);
              (c0 == 0 || c0 < count) && c0 < attachmentTimes.Length ==>
                currentAttachmentTimeIndex == Min(FillEnd(c0, count), attachmentTimes.Length) &&
                GeneratedFrom(old(attachmentTimes[..]), attachmentTimes[..], c0, currentAttachmentTimeIndex,
                              Step(samplingTime, lowerBound, count, c0))
      ensures r.Ok? ==> Valid()
    {
      if currentAttachmentTimeIndex != 0 && currentAttachmentTimeIndex >= count {
        return Ok(());
      }
      var step := (samplingTime - lowerBound) / (count - currentAttachmentTimeIndex) as real;
      if currentAttachmentTimeIndex == 0 {
        currentAttachmentTimeIndex := 1;
        if attachmentTimes.Length == 0 {
          return Error("ArrayIndexOutOfBoundsException");
        }
        attachmentTimes[0] := step;
      }
      r := ContinueRun(step);
    }

    /**
     * The loop of generateAttachmentTimes: each slot from the cursor up to
     * `count` is its predecessor plus `step`; the array running out first is
     * the ArrayIndexOutOfBoundsException, with the cursor at its end.
     */
    method ContinueRun(step: real) returns (r: Result<()>)
      requires 1 <= currentAttachmentTimeIndex <= attachmentTimes.Length
      modifies this`currentAttachmentTimeIndex, attachmentTimes
      ensures attachmentTimes == old(attachmentTimes)
      ensures var c0 := old(currentAttachmentTimeIndex);
              var end := if c0 < count then count else c0;
              (r.Error? <==> end > attachmentTimes.Length) &&
              currentAttachmentTimeIndex == Min(end, attachmentTimes.Length)
      ensures forall i :: old(currentAttachmentTimeIndex) <= i < currentAttachmentTimeIndex ==>
                attachmentTimes[i] == attachmentTimes[i - 1] + step
      ensures forall i :: 0 <= i < attachmentTimes.Length && !(old(currentAttachmentTimeIndex) <= i < currentAttachmentTimeIndex) ==>
                attachmentTimes[i] == old(attachmentTimes[i])
    {
      ghost var c0 := currentAttachmentTimeIndex;
      while currentAttachmentTimeIndex < count
        invariant c0 <= currentAttachmentTimeIndex <= attachmentTimes.Length
        invariant c0 < currentAttachmentTimeIndex ==> currentAttachmentTimeIndex <= count
        invariant forall i :: c0 <= i < currentAttachmentTimeIndex ==>
                    attachmentTimes[i] == attachmentTimes[i - 1] + step
        invariant forall i :: 0 <= i < attachmentTimes.Length && (i < c0 || i >= currentAttachmentTimeIndex) ==>
                    attachmentTimes[i] == old(attachmentTimes[i])
      {
        if currentAttachmentTimeIndex == attachmentTimes.Length {
          return Error("ArrayIndexOutOfBoundsException");
        }
        attachmentTimes[currentAttachmentTimeIndex] := attachmentTimes[currentAttachmentTimeIndex - 1] + step;
        currentAttachmentTimeIndex := currentAttachmentTimeIndex + 1;
      }
      return Ok(());
    }
  }

  function Min(a: int, b: int): int { if a <= b then a else b }

  /**
   * The cursor generateAttachmentTimes stops at when the array is long
   * enough: `count`, except that an empty record always fills slot 0.
   */
  function FillEnd(cursor: int, count: int): (r: int)
    ensures r >= count
    ensures cursor == 0 ==> r >= 1
  {
    if cursor == 0 && count < 1 then 1 else count
  }

  /** The equal step used by generateAttachmentTimes. */
  function Step(samplingTime: real, lowerBound: real, count: int, cursor: int): real
    requires cursor != count
  {
    (samplingTime - lowerBound) / (count - cursor) as real
  }

  /**
   * `after` is `before` with the slots [from, to) generated with difference
   * `step`: slot 0 is `step` itself when from == 0, every later generated slot
   * is its predecessor plus `step`, and every other slot is untouched.
   */
  ghost predicate GeneratedFrom(before: seq<real>, after: seq<real>, from: int, to: int, step: real)
  {
    0 <= from < to <= |before| == |after| &&
    (from == 0 ==> after[0] == step) &&
    (forall i :: (if from == 0 then 1 else from) <= i < to ==> after[i] == after[i - 1] + step) &&
    (forall i :: 0 <= i < |after| && (i < from || i >= to) ==> after[i] == before[i])
  }

  /** Each generated slot lies (k+1) steps above the slot the generation started from. */
  lemma {:induction false} GeneratedClosedForm(before: seq<real>, after: seq<real>, from: int, to: int, step: real, i: int)
    requires GeneratedFrom(before, after, from, to, step)
    requires from <= i < to
    ensures after[i] == (if from == 0 then 0.0 else before[from - 1]) + (i - from + 1) as real * step
  {
    if i > from {
      GeneratedClosedForm(before, after, from, to, step, i - 1);
    } else if from > 0 {
      assert after[from - 1] == before[from - 1];
    }
  }

  /**
   * The generated run, together with the slot it continues from, is strictly
   * ascending exactly when the step is positive.
   */
  lemma {:induction false} GeneratedAscendingIff(before: seq<real>, after: seq<real>, from: int, to: int, step: real)
    requires GeneratedFrom(before, after, from, to, step)
    requires to - (if from == 0 then 0 else from - 1) >= 2
    ensures StrictlyAscending(after[(if from == 0 then 0 else from - 1)..to]) <==> step > 0.0
  {
    var lo := if from == 0 then 0 else from - 1;
    var run := after[lo..to];
    assert run[1] == run[0] + step;
    if step > 0.0 {
      forall i, j | 0 <= i < j < |run| ensures run[i] < run[j] {
        RunIncreases(after, lo, to, step, lo + i, lo + j);
      }
    }
  }

  lemma {:induction false} RunIncreases(s: seq<real>, lo: int, to: int, step: real, i: int, j: int)
    requires 0 <= lo <= i < j <= to - 1 < |s|
    requires step > 0.0
    requires forall k :: lo < k < to ==> s[k] == s[k - 1] + step
    ensures s[i] < s[j]
  {
    if j > i + 1 {
      RunIncreases(s, lo, to, step, i, j - 1);
    }
  }

  /** The step is positive exactly when the sampling time lies above the lower bound. */
  lemma StepPositiveIff(samplingTime: real, lowerBound: real, count: int, cursor: int)
    requires cursor < count
    ensures Step(samplingTime, lowerBound, count, cursor) > 0.0 <==> samplingTime > lowerBound
  {
    var d := (count - cursor) as real;
    var st := Step(samplingTime, lowerBound, count, cursor);
    assert st * d == samplingTime - lowerBound;
  }

  /**
   * The source's generation on an empty record with sampling time 4.0, count 3
   * and lower bound 7.0 gives -1, -2, -3: descending and outside the interval
   * between the two bounds.
   */
  lemma GenerateFromEmptyExample(before: seq<real>, after: seq<real>)
    requires |before| == 3
    requires GeneratedFrom(before, after, 0, 3, Step(4.0, 7.0, 3, 0))
    ensures after == [-1.0, -2.0, -3.0]
    ensures !StrictlyAscending(after)
    ensures forall i :: 0 <= i < 3 ==> after[i] < 4.0
  {
    assert Step(4.0, 7.0, 3, 0) == -1.0;
    assert after[0] == -1.0;
    assert after[1] == after[0] + -1.0;
    assert after[2] == after[1] + -1.0;
    assert after[0] > after[1];
  }

  /**
   * Generation as its documentation describes it: n times in equal steps
   * between the lower bound and the sampling time, whichever of the two is
   * the earlier, the k-th at lo + (k+1) * (hi - lo) / (n + 1) so that every
   * one of them lies strictly inside the interval.
   */
  function IntendedAttachmentTimes(samplingTime: real, lowerBound: real, n: nat): (r: seq<real>)
    ensures |r| == n
  {
    var lo := if lowerBound <= samplingTime then lowerBound else samplingTime;
    var hi := if lowerBound <= samplingTime then samplingTime else lowerBound;
    var step := (hi - lo) / (n + 1) as real;
    seq(n, k requires 0 <= k < n => lo + (k + 1) as real * step)
  }

  /**
   * The intended times lie between the two bounds in either order; when the
   * bounds differ they are strictly ascending and strictly inside them.
   */
  lemma {:induction false} IntendedAttachmentTimesWithinBounds(samplingTime: real, lowerBound: real, n: nat)
    ensures var r := IntendedAttachmentTimes(samplingTime, lowerBound, n);
            var lo := if lowerBound <= samplingTime then lowerBound else samplingTime;
            var hi := if lowerBound <= samplingTime then samplingTime else lowerBound;
            (forall k :: 0 <= k < n ==> lo <= r[k] <= hi) &&
            (lo < hi ==> StrictlyAscending(r) && forall k :: 0 <= k < n ==> lo < r[k] < hi)
  {
    var r := IntendedAttachmentTimes(samplingTime, lowerBound, n);
    var lo := if lowerBound <= samplingTime then lowerBound else samplingTime;
    var hi := if lowerBound <= samplingTime then samplingTime else lowerBound;
    var step := (hi - lo) / (n + 1) as real;
    DivTimes(hi - lo, n + 1);
    assert forall k :: 0 <= k < n ==> r[k] == lo + (k + 1) as real * step;
    ProgressionInside(r, lo, hi, step, n);
  }

  lemma {:induction false} ProgressionInside(r: seq<real>, lo: real, hi: real, step: real, n: nat)
    requires |r| == n && lo <= hi
    requires (n + 1) as real * step == hi - lo
    requires forall k :: 0 <= k < n ==> r[k] == lo + (k + 1) as real * step
    ensures forall k :: 0 <= k < n ==> lo <= r[k] <= hi
    ensures lo < hi ==> StrictlyAscending(r) && forall k :: 0 <= k < n ==> lo < r[k] < hi
  {
    StepSign(step, n + 1, hi - lo);
    forall k | 0 <= k < n ensures lo <= r[k] <= hi && (lo < hi ==> lo < r[k] < hi) {
      ScaledBetween(step, k + 1, n + 1);
      if lo < hi {
        MulStrictMono(step, 0, k + 1);
        MulStrictMono(step, k + 1, n + 1);
      }
    }
    if lo < hi {
      forall i, j | 0 <= i < j < n ensures r[i] < r[j] {
        MulStrictMono(step, i + 1, j + 1);
      }
    }
  }

  /** A positive multiple of `step` has the sign of `step`. */
  lemma StepSign(step: real, m: nat, d: real)
    requires m > 0 && m as real * step == d && d >= 0.0
    ensures step >= 0.0 && (d > 0.0 ==> step > 0.0)
  {
  }

  /**
   * Sampling time 4, lower bound 7, three times: the intended generation
   * gives 4.75, 5.5 and 6.25.
   */
  lemma IntendedScenario()
    ensures IntendedAttachmentTimes(4.0, 7.0, 3) == [4.75, 5.5, 6.25]
  {
    var r := IntendedAttachmentTimes(4.0, 7.0, 3);
    assert r[0] == 4.75 && r[1] == 5.5 && r[2] == 6.25;
  }

  lemma DivTimes(x: real, n: nat)
    requires n > 0
    ensures n as real * (x / n as real) == x
  {
  }

  lemma ScaledBetween(step: real, m: nat, n: nat)
    requires 0 < m <= n
    ensures step >= 0.0 ==> 0.0 <= m as real * step <= n as real * step
    ensures step <= 0.0 ==> n as real * step <= m as real * step <= 0.0
  {
  }

  lemma MulStrictMono(step: real, a: nat, b: nat)
    requires step > 0.0 && a < b
    ensures a as real * step < b as real * step
  {
  }
}
