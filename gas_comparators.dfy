/**
 * Comparisons between gas mixtures by composition
 * (Content.Server/Atmos/EntitySystems/AtmoshpereSystem.EsHelpers.cs).
 *
 * A gas mixture is the vector of mole amounts per gas species, indexed by
 * species id; every mixture of the game has the same number of species.
 * Every comparator is a loop over that vector, modelled as a method proved
 * against a specification function; the lemmas state what the functions mean.
 */
module GasComparators {
  import opened Wrappers
  import opened Numeric

  /** Mole amount of each gas species, indexed by species id. */
  type GasMixture = seq<real>

  /** Threshold used by the two threshold tests when the caller gives none. */
  const DefaultThreshold: real := 0.01

  /** The physical invariant of a mixture: no species has negative moles. */
  predicate NonNegative(m: GasMixture)
  {
    forall i :: 0 <= i < |m| ==> m[i] >= 0.0
  }

  /** Sum of the first n entries of s. */
  function SumTo(s: seq<real>, n: nat): real
    requires n <= |s|
  {
    if n == 0 then 0.0 else SumTo(s, n - 1) + s[n - 1]
  }

  /** GasMixture.TotalMoles: the sum over all species. */
  function TotalMoles(m: GasMixture): real
  {
    SumTo(m, |m|)
  }

  /** Sum over the first n species of the smaller of the two mole amounts. */
  function MinOverlap(a: GasMixture, b: GasMixture, n: nat): real
    requires n <= |a| && n <= |b|
  {
    if n == 0 then 0.0 else MinOverlap(a, b, n - 1) + Min(a[n - 1], b[n - 1])
  }

  // ---------------------------------------------------------------------------
  // Specification functions
  // ---------------------------------------------------------------------------

  /** Fraction of the total held by each species; all zero for an empty mixture. */
  function Percentages(m: GasMixture): (p: seq<real>)
    ensures |p| == |m|
  {
    var total := TotalMoles(m);
    seq(|m|, i requires 0 <= i < |m| => if total <= 0.0 then 0.0 else m[i] / total)
  }

  /**
   * Proportional overlap of two mixtures: 0 when either is missing, 1 when both
   * totals are zero, otherwise the summed species-wise minimum over the larger
   * total. The source loops over a's species only, so b must have at least as
   * many, and only b's first |a| species enter its total.
   */
  function Similarity(a: Option<GasMixture>, b: Option<GasMixture>): real
    requires a.Some? && b.Some? ==> |a.value| <= |b.value|
  {
    if a.None? || b.None? then 0.0
    else
      var n := |a.value|;
      var denominator := Max(SumTo(a.value, n), SumTo(b.value, n));
      if denominator == 0.0 then 1.0 else MinOverlap(a.value, b.value, n) / denominator
  }

  /**
   * Every species present in the target is present in the source at no less
   * than its target share minus the threshold (all species must pass).
   */
  predicate GasesAboveThreshold(target: GasMixture, source: GasMixture, threshold: real)
    requires |target| <= |source|
  {
    var tp := Percentages(target);
    var sp := Percentages(source);
    forall i :: 0 <= i < |target| && tp[i] > 0.0 ==> sp[i] >= tp[i] - threshold
  }

  /**
   * Some species present in the target has a source share strictly above the
   * threshold (one species suffices; the threshold is a floor, not relative to
   * the target share).
   */
  predicate AnyRequiredGas(target: GasMixture, source: GasMixture, threshold: real)
    requires |target| <= |source|
  {
    var tp := Percentages(target);
    var sp := Percentages(source);
    exists i :: 0 <= i < |target| && tp[i] > 0.0 && sp[i] > threshold
  }

  /** Some species present in the first n target shares is missing from the source shares. */
  predicate SomeRequiredAbsent(tp: seq<real>, sp: seq<real>, n: nat)
    requires n <= |tp| && n <= |sp|
  {
    exists i :: 0 <= i < n && tp[i] > 0.0 && sp[i] <= 0.0
  }

  /** Running minimum, starting at 1, of source share over target share for the required species. */
  function MinRatio(tp: seq<real>, sp: seq<real>, n: nat): real
    requires n <= |tp| && n <= |sp|
  {
    if n == 0 then 1.0
    else
      var m := MinRatio(tp, sp, n - 1);
      if tp[n - 1] > 0.0 then Min(m, sp[n - 1] / tp[n - 1]) else m
  }

  /** 0 if a required species is absent, otherwise the smallest source/target share ratio, at most 1. */
  function PurityRatio(target: GasMixture, source: GasMixture): (r: real)
    requires |target| <= |source|
    ensures 0.0 <= r <= 1.0
  {
    var tp := Percentages(target);
    var sp := Percentages(source);
    if SomeRequiredAbsent(tp, sp, |tp|) then 0.0 else Clamp(MinRatio(tp, sp, |tp|), 0.0, 1.0)
  }

  // ---------------------------------------------------------------------------
  // The comparators as the source computes them
  // ---------------------------------------------------------------------------

  /** GetGasPercentages: a fresh zeroed buffer, filled by index unless the total is not positive. */
  method GetGasPercentages(mixture: GasMixture) returns (result: seq<real>)
    ensures result == Percentages(mixture)
  {
    var total := TotalMoles(mixture);
    var buffer := new real[|mixture|](_ => 0.0);
    if total <= 0.0 {
      return buffer[..];
    }
    for i := 0 to |mixture|
      invariant forall j :: 0 <= j < i ==> buffer[j] == mixture[j] / total
    {
      buffer[i] := mixture[i] / total;
    }
    result := buffer[..];
  }

  /** GetGasMixtureSimilarity: three accumulators over a's species, then one division. */
  method GetGasMixtureSimilarity(a: Option<GasMixture>, b: Option<GasMixture>) returns (r: real)
    requires a.Some? && b.Some? ==> |a.value| <= |b.value|
    ensures r == Similarity(a, b)
  {
    if a.None? || b.None? {
      return 0.0;
    }
    var aArr, bArr := a.value, b.value;
    var len := |aArr|;
    var numerator, denominatorA, denominatorB := 0.0, 0.0, 0.0;
    for i := 0 to len
      invariant numerator == MinOverlap(aArr, bArr, i)
      invariant denominatorA == SumTo(aArr, i)
      invariant denominatorB == SumTo(bArr, i)
    {
      numerator := numerator + Min(aArr[i], bArr[i]);
      denominatorA := denominatorA + aArr[i];
      denominatorB := denominatorB + bArr[i];
    }
    var denominator := Max(denominatorA, denominatorB);
    r := if denominator == 0.0 then 1.0 else numerator / denominator;
  }

  /** HasGasesAboveThreshold: returns false at the first species that falls short. */
  method HasGasesAboveThreshold(target: GasMixture, source: GasMixture, threshold: real) returns (r: bool)
    requires |target| <= |source|
    ensures r == GasesAboveThreshold(target, source, threshold)
  {
    var targetPerc := GetGasPercentages(target);
    var sourcePerc := GetGasPercentages(source);
    for i := 0 to |targetPerc|
      invariant forall j :: 0 <= j < i && targetPerc[j] > 0.0 ==> sourcePerc[j] >= targetPerc[j] - threshold
    {
      if targetPerc[i] > 0.0 && sourcePerc[i] < targetPerc[i] - threshold {
        return false;
      }
    }
    return true;
  }

  /** GetPurityRatio: a running minimum with an early 0 for a missing species, then a clamp to [0, 1]. */
  method GetPurityRatio(target: GasMixture, source: GasMixture) returns (r: real)
    requires |target| <= |source|
    ensures r == PurityRatio(target, source)
  {
    var targetPerc := GetGasPercentages(target);
    var sourcePerc := GetGasPercentages(source);
    var min := 1.0;
    for i := 0 to |targetPerc|
      invariant min == MinRatio(targetPerc, sourcePerc, i)
      invariant !SomeRequiredAbsent(targetPerc, sourcePerc, i)
    {
      if targetPerc[i] > 0.0 {
        if sourcePerc[i] <= 0.0 {
          assert SomeRequiredAbsent(targetPerc, sourcePerc, |targetPerc|) by {
            assert 0 <= i < |targetPerc| && targetPerc[i] > 0.0 && sourcePerc[i] <= 0.0;
          }
          return 0.0;
        }
        min := Min(min, sourcePerc[i] / targetPerc[i]);
      }
    }
    r := Clamp(min, 0.0, 1.0);
  }

  /** HasAnyRequiredGas: returns true at the first required species above the floor. */
  method HasAnyRequiredGas(target: GasMixture, source: GasMixture, threshold: real) returns (r: bool)
    requires |target| <= |source|
    ensures r == AnyRequiredGas(target, source, threshold)
  {
    var targetPerc := GetGasPercentages(target);
    var sourcePerc := GetGasPercentages(source);
    for i := 0 to |targetPerc|
      invariant forall j :: 0 <= j < i ==> !(targetPerc[j] > 0.0 && sourcePerc[j] > threshold)
    {
      if targetPerc[i] > 0.0 && sourcePerc[i] > threshold {
        return true;
      }
    }
    return false;
  }

  // ---------------------------------------------------------------------------
  // Properties
  // ---------------------------------------------------------------------------

  lemma {:induction false} SumToNonNegative(s: seq<real>, n: nat)
    requires n <= |s| && NonNegative(s)
    ensures SumTo(s, n) >= 0.0
  {
    if n > 0 {
      SumToNonNegative(s, n - 1);
    }
  }

  /** One entry of a non-negative vector never exceeds the whole sum. */
  lemma {:induction false} EntryAtMostSum(s: seq<real>, n: nat, k: nat)
    requires k < n <= |s| && NonNegative(s)
    ensures s[k] <= SumTo(s, n)
  {
    SumToNonNegative(s, n - 1);
    if k < n - 1 {
      EntryAtMostSum(s, n - 1, k);
    }
  }

  /** Dividing every entry by c divides the sum by c. */
  lemma {:induction false} SumToOfPercentages(m: GasMixture, n: nat)
    requires n <= |m| && TotalMoles(m) > 0.0
    ensures SumTo(Percentages(m), n) == SumTo(m, n) / TotalMoles(m)
  {
    if n > 0 {
      SumToOfPercentages(m, n - 1);
      var t := TotalMoles(m);
      assert Percentages(m)[n - 1] == m[n - 1] / t;
      assert SumTo(m, n - 1) / t + m[n - 1] / t == (SumTo(m, n - 1) + m[n - 1]) / t;
    }
  }

  /** The shares of a non-empty mixture add up to exactly 1. */
  lemma PercentagesSumToOne(m: GasMixture)
    requires TotalMoles(m) > 0.0
    ensures TotalMoles(Percentages(m)) == 1.0
  {
    SumToOfPercentages(m, |m|);
    assert SumTo(m, |m|) / TotalMoles(m) == 1.0;
  }

  /** Each share of a non-negative mixture lies in [0, 1]; an empty mixture has only zero shares. */
  lemma PercentagesInUnitRange(m: GasMixture)
    requires NonNegative(m)
    ensures forall i :: 0 <= i < |m| ==> 0.0 <= Percentages(m)[i] <= 1.0
    ensures TotalMoles(m) <= 0.0 ==> forall i :: 0 <= i < |m| ==> Percentages(m)[i] == 0.0
  {
    forall i | 0 <= i < |m|
      ensures 0.0 <= Percentages(m)[i] <= 1.0
    {
      if TotalMoles(m) > 0.0 {
        EntryAtMostSum(m, |m|, i);
        assert Percentages(m)[i] == m[i] / TotalMoles(m);
        RatioInUnitRange(m[i], TotalMoles(m));
      }
    }
  }

  lemma {:induction false} MinOverlapBounds(a: GasMixture, b: GasMixture, n: nat)
    requires n <= |a| && n <= |b| && NonNegative(a) && NonNegative(b)
    ensures 0.0 <= MinOverlap(a, b, n) <= SumTo(a, n)
    ensures MinOverlap(a, b, n) <= SumTo(b, n)
  {
    if n > 0 {
      MinOverlapBounds(a, b, n - 1);
    }
  }

  lemma {:induction false} MinOverlapSymmetric(a: GasMixture, b: GasMixture, n: nat)
    requires n <= |a| && n <= |b|
    ensures MinOverlap(a, b, n) == MinOverlap(b, a, n)
  {
    if n > 0 {
      MinOverlapSymmetric(a, b, n - 1);
    }
  }

  lemma {:induction false} MinOverlapWithItself(a: GasMixture, n: nat)
    requires n <= |a|
    ensures MinOverlap(a, a, n) == SumTo(a, n)
  {
    if n > 0 {
      MinOverlapWithItself(a, n - 1);
    }
  }

  /** Similarity of non-negative mixtures is a score in [0, 1]. */
  lemma SimilarityInUnitRange(a: GasMixture, b: GasMixture)
    requires |a| <= |b| && NonNegative(a) && NonNegative(b)
    ensures 0.0 <= Similarity(Some(a), Some(b)) <= 1.0
  {
    var n := |a|;
    MinOverlapBounds(a, b, n);
    SumToNonNegative(a, n);
    SumToNonNegative(b, n);
    var d := Max(SumTo(a, n), SumTo(b, n));
    if d != 0.0 {
      RatioInUnitRange(MinOverlap(a, b, n), d);
    }
  }

  /** A non-negative part of a positive whole is a ratio in [0, 1]. */
  lemma RatioInUnitRange(part: real, whole: real)
    requires 0.0 <= part <= whole && whole > 0.0
    ensures 0.0 <= part / whole <= 1.0
  {
    assert part / whole * whole == part;
  }

  /** Similarity does not depend on the order of its arguments. */
  lemma SimilaritySymmetric(a: GasMixture, b: GasMixture)
    requires |a| == |b|
    ensures Similarity(Some(a), Some(b)) == Similarity(Some(b), Some(a))
  {
    MinOverlapSymmetric(a, b, |a|);
  }

  /** A mixture is fully similar to itself, the empty mixture included. */
  lemma SimilarityWithItself(a: GasMixture)
    ensures Similarity(Some(a), Some(a)) == 1.0
  {
    MinOverlapWithItself(a, |a|);
  }

  /** The mixture m with every mole amount multiplied by k. */
  function Scaled(m: GasMixture, k: real): (r: GasMixture)
    ensures |r| == |m|
  {
    seq(|m|, i requires 0 <= i < |m| => k * m[i])
  }

  lemma {:induction false} SumToScaled(m: GasMixture, k: real, n: nat)
    requires n <= |m|
    ensures SumTo(Scaled(m, k), n) == k * SumTo(m, n)
  {
    if n > 0 {
      SumToScaled(m, k, n - 1);
      assert Scaled(m, k)[n - 1] == k * m[n - 1];
    }
  }

  lemma {:induction false} MinOverlapScaled(m: GasMixture, k: real, n: nat)
    requires n <= |m| && NonNegative(m) && k >= 1.0
    ensures MinOverlap(m, Scaled(m, k), n) == SumTo(m, n)
  {
    if n > 0 {
      MinOverlapScaled(m, k, n - 1);
      assert m[n - 1] <= k * m[n - 1] by { assert m[n - 1] >= 0.0; }
    }
  }

  /** A common non-zero factor of numerator and denominator cancels. */
  lemma CancelFactor(a: real, t: real, k: real)
    requires t != 0.0 && k != 0.0
    ensures (k * a) / (k * t) == a / t
  {
    assert (k * a) / (k * t) * (k * t) == k * a;
    assert a / t * t == a;
    assert (k * a) / (k * t) * k * t == a / t * t * k;
  }

  /** Scaling a mixture by a positive factor keeps its composition. */
  lemma ScaledPercentages(m: GasMixture, k: real)
    requires k > 0.0
    ensures Percentages(Scaled(m, k)) == Percentages(m)
  {
    var total := TotalMoles(m);
    SumToScaled(m, k, |m|);
    var p, q := Percentages(m), Percentages(Scaled(m, k));
    forall i | 0 <= i < |m|
      ensures q[i] == p[i]
    {
      if total > 0.0 {
        assert k * total > 0.0;
        CancelFactor(m[i], total, k);
      } else {
        assert k * total <= 0.0;
      }
    }
  }

  /**
   * The similarity compares mole amounts, not shares: a mixture and k times
   * that mixture have the same composition, yet score 1/k, below 1 for any
   * k > 1 (one mole each of two gases against two moles each scores 0.5).
   */
  lemma SimilarityComparesMoles(m: GasMixture, k: real)
    requires NonNegative(m) && TotalMoles(m) > 0.0 && k >= 1.0
    ensures Percentages(Scaled(m, k)) == Percentages(m)
    ensures Similarity(Some(m), Some(Scaled(m, k))) == 1.0 / k
    ensures k > 1.0 ==> Similarity(Some(m), Some(Scaled(m, k))) < 1.0
  {
    var total := TotalMoles(m);
    ScaledPercentages(m, k);
    SumToScaled(m, k, |m|);
    MinOverlapScaled(m, k, |m|);
    assert total <= k * total;
    assert Max(total, k * total) == k * total;
    CancelFactor(1.0, k, total);
    assert total * 1.0 == total && total * k == k * total;
  }

  /** MinRatio is the least of 1 and the ratios of the required species, and is reached by one of them. */
  lemma {:induction false} MinRatioIsMinimum(tp: seq<real>, sp: seq<real>, n: nat)
    requires n <= |tp| && n <= |sp|
    ensures MinRatio(tp, sp, n) <= 1.0
    ensures forall i :: 0 <= i < n && tp[i] > 0.0 ==> MinRatio(tp, sp, n) <= sp[i] / tp[i]
    ensures MinRatio(tp, sp, n) == 1.0
         || exists i :: 0 <= i < n && tp[i] > 0.0 && MinRatio(tp, sp, n) == sp[i] / tp[i]
  {
    if n > 0 {
      MinRatioIsMinimum(tp, sp, n - 1);
    }
  }

  /** With every required species present the running minimum stays positive. */
  lemma {:induction false} MinRatioPositive(tp: seq<real>, sp: seq<real>, n: nat)
    requires n <= |tp| && n <= |sp| && !SomeRequiredAbsent(tp, sp, n)
    ensures MinRatio(tp, sp, n) > 0.0
  {
    if n > 0 {
      MinRatioPositive(tp, sp, n - 1);
      if tp[n - 1] > 0.0 {
        assert sp[n - 1] > 0.0;
      }
    }
  }

  /**
   * The purity ratio is 0 exactly when a required species is absent, and
   * otherwise the least of 1 and the required species' source/target ratios.
   */
  lemma PurityIsMinimumRatio(target: GasMixture, source: GasMixture)
    requires |target| <= |source|
    ensures var tp, sp, r := Percentages(target), Percentages(source), PurityRatio(target, source);
      && (r == 0.0 <==> SomeRequiredAbsent(tp, sp, |tp|))
      && (!SomeRequiredAbsent(tp, sp, |tp|) ==>
            && (forall i :: 0 <= i < |tp| && tp[i] > 0.0 ==> r <= sp[i] / tp[i])
            && (r == 1.0 || exists i :: 0 <= i < |tp| && tp[i] > 0.0 && r == sp[i] / tp[i]))
  {
    var tp, sp := Percentages(target), Percentages(source);
    if !SomeRequiredAbsent(tp, sp, |tp|) {
      MinRatioIsMinimum(tp, sp, |tp|);
      MinRatioPositive(tp, sp, |tp|);
    }
  }

  /** The running minimum is 1 exactly when no required species falls below its target share. */
  lemma {:induction false} MinRatioIsOneIffNoShortfall(tp: seq<real>, sp: seq<real>, n: nat)
    requires n <= |tp| && n <= |sp|
    ensures MinRatio(tp, sp, n) == 1.0 <==> forall i :: 0 <= i < n && tp[i] > 0.0 ==> sp[i] >= tp[i]
  {
    if n > 0 {
      MinRatioIsOneIffNoShortfall(tp, sp, n - 1);
      MinRatioIsMinimum(tp, sp, n - 1);
      if tp[n - 1] > 0.0 {
        assert sp[n - 1] / tp[n - 1] >= 1.0 <==> sp[n - 1] >= tp[n - 1];
      }
    }
  }

  /** A source whose composition equals the target's is fully pure. */
  lemma PurityOfMatchingComposition(target: GasMixture, source: GasMixture)
    requires |target| == |source| && Percentages(target) == Percentages(source)
    ensures PurityRatio(target, source) == 1.0
  {
    var tp := Percentages(target);
    MinRatioIsOneIffNoShortfall(tp, tp, |tp|);
  }

  /** A target without gas requires nothing, so any source is fully pure for it. */
  lemma PurityOfEmptyTarget(target: GasMixture, source: GasMixture)
    requires |target| <= |source| && TotalMoles(target) <= 0.0
    ensures PurityRatio(target, source) == 1.0
  {
    PurityIsMinimumRatio(target, source);
  }

  /**
   * The purity policy and the threshold policy agree at threshold 0: full
   * purity holds exactly when every required species reaches its target share.
   */
  lemma FullPurityIffNoShortfall(target: GasMixture, source: GasMixture)
    requires |target| <= |source|
    ensures PurityRatio(target, source) == 1.0 <==> GasesAboveThreshold(target, source, 0.0)
  {
    var tp, sp := Percentages(target), Percentages(source);
    MinRatioIsOneIffNoShortfall(tp, sp, |tp|);
    MinRatioIsMinimum(tp, sp, |tp|);
  }

  /** A target without gas passes the all-species test and fails the any-species test. */
  lemma EmptyTargetOutcomes(target: GasMixture, source: GasMixture, threshold: real)
    requires |target| <= |source| && TotalMoles(target) <= 0.0
    ensures GasesAboveThreshold(target, source, threshold)
    ensures !AnyRequiredGas(target, source, threshold)
  {
  }

  /**
   * Documented purity example: target 50% oxygen and 50% nitrogen, inlet 25%
   * oxygen, 25% nitrogen and 50% of a third gas; half the benefits apply.
   */
  lemma PurityDocumentedExample()
    ensures PurityRatio([50.0, 50.0, 0.0], [25.0, 25.0, 50.0]) == 0.5
  {
    var target, source := [50.0, 50.0, 0.0], [25.0, 25.0, 50.0];
    assert SumTo(target, 3) == 100.0 by {
      assert SumTo(target, 1) == 50.0;
      assert SumTo(target, 2) == 100.0;
    }
    assert SumTo(source, 3) == 100.0 by {
      assert SumTo(source, 1) == 25.0;
      assert SumTo(source, 2) == 50.0;
    }
    var tp, sp := Percentages(target), Percentages(source);
    assert tp[0] == 0.5 && tp[1] == 0.5 && tp[2] == 0.0;
    assert sp[0] == 0.25 && sp[1] == 0.25 && sp[2] == 0.5;
    assert !SomeRequiredAbsent(tp, sp, 3);
    assert MinRatio(tp, sp, 1) == 0.5;
    assert MinRatio(tp, sp, 2) == 0.5;
    assert MinRatio(tp, sp, 3) == 0.5;
  }

  /**
   * Documented threshold examples (species order: oxygen, nitrogen), stated
   * with the outcomes the code gives. A target of 50% nitrogen and 50% oxygen
   * against an inlet of 65% nitrogen and 35% oxygen fails (oxygen falls
   * short), and a 50/50 target against a 49/51 inlet passes, since 0.49 is
   * not below 0.5 - 0.01; the documentation says the opposite of both.
   */
  lemma ThresholdDocumentedExamples()
    ensures !GasesAboveThreshold([50.0, 50.0], [35.0, 65.0], DefaultThreshold)
    ensures GasesAboveThreshold([50.0, 50.0], [49.0, 51.0], DefaultThreshold)
  {
    var target := [50.0, 50.0];
    assert SumTo(target, 2) == 100.0 by { assert SumTo(target, 1) == 50.0; }
    var s1 := [35.0, 65.0];
    assert SumTo(s1, 2) == 100.0 by { assert SumTo(s1, 1) == 35.0; }
    var s2 := [49.0, 51.0];
    assert SumTo(s2, 2) == 100.0 by { assert SumTo(s2, 1) == 49.0; }
    var tp := Percentages(target);
    assert tp[0] == 0.5 && tp[1] == 0.5;
    assert Percentages(s1)[0] == 0.35;
    assert Percentages(s2)[0] == 0.49 && Percentages(s2)[1] == 0.51;
  }
}
