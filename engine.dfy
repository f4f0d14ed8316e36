/**
 * The forecast engine shared by the upload and the read path of both handler
 * files: projection of the revenue series, chart labels, period-over-period
 * trends and percent changes, and detection of local peaks and drops.
 */
module Engine {
  import opened Wrappers
  import opened JsNumbers

  const GrowthRate: real := 0.05

  /** Number of periods projected in monthly mode. */
  const MonthlyHorizon: nat := 12

  datatype Trend = Up | Down | Stable

  /** `base * Math.pow(1 + growthRate, k)`, before rounding. */
  function Compounded(base: real, k: nat): real
  {
    base * Pow(1.0 + GrowthRate, k)
  }

  /** `parseFloat((base * Math.pow(1 + growthRate, k)).toFixed(2))`. */
  function Grow(base: real, k: nat): real
  {
    ToFixed2(Compounded(base, k))
  }

  /** Number of projected periods: 12 in monthly mode, otherwise one per historical value. */
  function Horizon(monthly: bool, n: nat): nat
  {
    if monthly then MonthlyHorizon else n
  }

  /** Each projected value grows the historical value `i mod n` by `i + 1` periods. */
  function Project(revenue: seq<real>, monthly: bool): seq<real>
    requires |revenue| > 0
  {
    seq(Horizon(monthly, |revenue|), i requires 0 <= i => Grow(revenue[i % |revenue|], i + 1))
  }

  /** `Month ${i + 1}` or `Q${i + 1}`. */
  function Label(monthly: bool, i: nat): string
  {
    (if monthly then "Month " else "Q") + NatToString(i + 1)
  }

  function Labels(monthly: bool, h: nat): seq<string>
  {
    seq(h, i requires 0 <= i => Label(monthly, i))
  }

  /** Direction from the sign of `cur - prev`. */
  function TrendOf(prev: real, cur: real): Trend
  {
    var diff := cur - prev;
    if diff > 0.0 then Up else if diff < 0.0 then Down else Stable
  }

  /**
   * `parseFloat(((diff / prev) * 100).toFixed(2))`; None where `prev` is 0 and
   * the division yields NaN or Infinity (both serialised as `null`).
   */
  function PctChange(prev: real, cur: real): Option<real>
  {
    if prev == 0.0 then None else Some(ToFixed2((cur - prev) / prev * 100.0))
  }

  function Trends(f: seq<real>): seq<Trend>
  {
    seq(|f|, i requires 0 <= i < |f| => if i == 0 then Stable else TrendOf(f[i - 1], f[i]))
  }

  function PctChanges(f: seq<real>): seq<Option<real>>
  {
    seq(|f|, i requires 0 <= i < |f| => if i == 0 then Some(0.0) else PctChange(f[i - 1], f[i]))
  }

  datatype Extremum = Peak | Drop

  /** Interior index `i` strictly exceeds (Peak) or strictly undercuts (Drop) both neighbours. */
  predicate IsExtremum(f: seq<real>, i: nat, kind: Extremum)
    requires 1 <= i < |f| - 1
  {
    match kind
    case Peak => f[i] > f[i - 1] && f[i] > f[i + 1]
    case Drop => f[i] < f[i - 1] && f[i] < f[i + 1]
  }

  /** The indices in `[1, k)` of that kind, in the order the scan pushes them. */
  function ExtremaBelow(f: seq<real>, k: nat, kind: Extremum): seq<nat>
    requires k < |f|
  {
    if k <= 1 then []
    else ExtremaBelow(f, k - 1, kind) + (if IsExtremum(f, k - 1, kind) then [k - 1] else [])
  }

  function Extrema(f: seq<real>, kind: Extremum): seq<nat>
  {
    if |f| == 0 then [] else ExtremaBelow(f, |f| - 1, kind)
  }

  // ---------------------------------------------------------------------------
  // The loops

  /** Pushing a value onto the forecast pushes its trend onto the trends. */
  lemma TrendsSnoc(f: seq<real>, v: real)
    ensures Trends(f + [v]) == Trends(f) + [if f == [] then Stable else TrendOf(f[|f| - 1], v)]
  {
    var g := f + [v];
    assert forall k :: 0 <= k < |f| ==> g[k] == f[k];
  }

  /** Pushing a value onto the forecast pushes its percent change onto the percent changes. */
  lemma PctChangesSnoc(f: seq<real>, v: real)
    ensures PctChanges(f + [v]) == PctChanges(f) + [if f == [] then Some(0.0) else PctChange(f[|f| - 1], v)]
  {
    var g := f + [v];
    assert forall k :: 0 <= k < |f| ==> g[k] == f[k];
  }

  /** The projection up to period `i + 1` extends the one up to `i` by period `i`'s value. */
  lemma ProjectPrefixSnoc(revenue: seq<real>, monthly: bool, i: nat)
    requires |revenue| > 0 && i < Horizon(monthly, |revenue|)
    ensures Project(revenue, monthly)[..i + 1] == Project(revenue, monthly)[..i] + [Grow(revenue[i % |revenue|], i + 1)]
  {
    var f := Project(revenue, monthly);
    assert f[..i + 1] == f[..i] + [f[i]];
  }

  lemma LabelsSnoc(monthly: bool, i: nat)
    ensures Labels(monthly, i + 1) == Labels(monthly, i) + [Label(monthly, i)]
  {
  }

  /**
   * The projection loop: one pass pushing the forecast value, its chart label,
   * its trend and its percent change, each compared with the value pushed before.
   */
  method Generate(revenue: seq<real>, monthly: bool)
    returns (forecast: seq<real>, labels: seq<string>, trends: seq<Trend>, pctChange: seq<Option<real>>)
    requires |revenue| > 0
    ensures forecast == Project(revenue, monthly)
    ensures labels == Labels(monthly, |forecast|)
    ensures trends == Trends(forecast)
    ensures pctChange == PctChanges(forecast)
  {
    var periods := if monthly then MonthlyHorizon else |revenue|;
    forecast, labels, trends, pctChange := [], [], [], [];
    var i := 0;
    while i < periods
      invariant 0 <= i <= periods
      invariant forecast == Project(revenue, monthly)[..i]
      invariant labels == Labels(monthly, i)
      invariant trends == Trends(forecast)
      invariant pctChange == PctChanges(forecast)
    {
      var base := revenue[i % |revenue|];
      var value := Grow(base, i + 1);
      ProjectPrefixSnoc(revenue, monthly, i);
      LabelsSnoc(monthly, i);
      TrendsSnoc(forecast, value);
      PctChangesSnoc(forecast, value);
      if i == 0 {
        trends := trends + [Stable];
        pctChange := pctChange + [Some(0.0)];
      } else {
        var diff := value - forecast[i - 1];
        trends := trends + [if diff > 0.0 then Up else if diff < 0.0 then Down else Stable];
        pctChange := pctChange + [PctChange(forecast[i - 1], value)];
      }
      forecast := forecast + [value];
      labels := labels + [Label(monthly, i)];
      i := i + 1;
    }
  }

  /** The extremum loop over the interior indices `1 .. |f| - 2`. */
  method DetectExtrema(f: seq<real>) returns (peaks: seq<nat>, drops: seq<nat>)
    ensures peaks == Extrema(f, Peak)
    ensures drops == Extrema(f, Drop)
  {
    peaks, drops := [], [];
    var i := 1;
    while i < |f| - 1
      invariant 1 <= i
      invariant |f| >= 2 ==> i <= |f| - 1
      invariant i < |f| ==> peaks == ExtremaBelow(f, i, Peak) && drops == ExtremaBelow(f, i, Drop)
      invariant i >= |f| ==> peaks == [] && drops == []
    {
      if f[i] > f[i - 1] && f[i] > f[i + 1] {
        peaks := peaks + [i];
      }
      if f[i] < f[i - 1] && f[i] < f[i + 1] {
        drops := drops + [i];
      }
      i := i + 1;
    }
  }

  // ---------------------------------------------------------------------------
  // Projection

  /** The forecast has one value per period of the horizon, each anchored to a historical value, never to an earlier forecast. */
  lemma ProjectionShape(revenue: seq<real>, monthly: bool)
    requires |revenue| > 0
    ensures |Project(revenue, monthly)| == (if monthly then 12 else |revenue|)
    ensures forall i :: 0 <= i < |Project(revenue, monthly)| ==>
      Project(revenue, monthly)[i] == Grow(revenue[i % |revenue|], i + 1)
  {
  }

  /** In quarterly mode every historical value is used exactly once, at its own position. */
  lemma QuarterlyUsesEachValueOnce(revenue: seq<real>)
    requires |revenue| > 0
    ensures forall i :: 0 <= i < |revenue| ==> Project(revenue, false)[i] == Grow(revenue[i], i + 1)
  {
    forall i | 0 <= i < |revenue|
      ensures Project(revenue, false)[i] == Grow(revenue[i], i + 1)
    {
      assert i % |revenue| == i;
    }
  }

  /** In monthly mode only the first twelve historical values matter. */
  lemma MonthlyUsesFirstTwelve(revenue: seq<real>)
    requires |revenue| >= 12
    ensures Project(revenue, true) == Project(revenue[..12], true)
  {
    var a, b := Project(revenue, true), Project(revenue[..12], true);
    forall i | 0 <= i < 12
      ensures a[i] == b[i]
    {
      assert i % |revenue| == i && i % 12 == i;
    }
  }

  /** A non-negative base grown over more periods is never smaller. */
  lemma GrowMonotoneInPeriods(base: real, j: nat, k: nat)
    requires base >= 0.0 && j <= k
    ensures Grow(base, j) <= Grow(base, k)
  {
    PowMonotone(1.0 + GrowthRate, j, k);
    assert Compounded(base, j) <= Compounded(base, k);
    ToFixed2Monotone(Compounded(base, j), Compounded(base, k));
  }

  /**
   * When the monthly horizon wraps around a short history, a non-negative
   * value comes back no smaller than it was projected one cycle earlier.
   */
  lemma CycleRepeatsAnchor(revenue: seq<real>, monthly: bool, i: nat)
    requires |revenue| > 0
    requires i + |revenue| < |Project(revenue, monthly)|
    requires revenue[i % |revenue|] >= 0.0
    ensures Project(revenue, monthly)[i] <= Project(revenue, monthly)[i + |revenue|]
  {
    var n := |revenue|;
    assert (i + n) % n == i % n;
    GrowMonotoneInPeriods(revenue[i % n], i + 1, i + n + 1);
  }

  // ---------------------------------------------------------------------------
  // Trends

  /** One trend per forecast value: the first is stable, the others follow the sign of the difference. */
  lemma TrendsCharacterised(f: seq<real>)
    ensures |Trends(f)| == |f|
    ensures f != [] ==> Trends(f)[0] == Stable
    ensures forall i :: 1 <= i < |f| ==>
      (Trends(f)[i] == Up <==> f[i] > f[i - 1]) &&
      (Trends(f)[i] == Down <==> f[i] < f[i - 1]) &&
      (Trends(f)[i] == Stable <==> f[i] == f[i - 1])
  {
    forall i | 1 <= i < |f|
      ensures Trends(f)[i] == TrendOf(f[i - 1], f[i])
    {
    }
  }

  /** One percent change per forecast value, the first being 0. */
  lemma PctChangesShape(f: seq<real>)
    ensures |PctChanges(f)| == |f|
    ensures f != [] ==> PctChanges(f)[0] == Some(0.0)
  {
  }

  /**
   * The percent change is defined exactly when the previous value is not 0;
   * after a positive value its sign never contradicts the trend (rounding may
   * turn a small rise or fall into 0).
   */
  lemma PctChangeAgreesWithTrend(f: seq<real>, i: nat)
    requires 1 <= i < |f|
    ensures PctChanges(f)[i].Some? <==> f[i - 1] != 0.0
    ensures f[i - 1] > 0.0 ==> match Trends(f)[i]
      case Up => PctChanges(f)[i].value >= 0.0
      case Down => PctChanges(f)[i].value <= 0.0
      case Stable => PctChanges(f)[i].value == 0.0
  {
    if f[i - 1] > 0.0 {
      var ratio := (f[i] - f[i - 1]) / f[i - 1] * 100.0;
      if f[i] > f[i - 1] {
        assert ratio > 0.0;
      } else if f[i] < f[i - 1] {
        assert ratio < 0.0;
      } else {
        assert ratio == 0.0;
      }
    }
  }

  // ---------------------------------------------------------------------------
  // Peaks and drops

  lemma {:induction false} ExtremaBelowMembers(f: seq<real>, k: nat, kind: Extremum)
    requires k < |f|
    ensures forall i :: i in ExtremaBelow(f, k, kind) <==> 1 <= i < k && IsExtremum(f, i, kind)
    decreases k
  {
    if k > 1 {
      ExtremaBelowMembers(f, k - 1, kind);
    }
  }

  lemma {:induction false} ExtremaBelowIncreasing(f: seq<real>, k: nat, kind: Extremum)
    requires k < |f|
    ensures forall a, b :: 0 <= a < b < |ExtremaBelow(f, k, kind)| ==>
      ExtremaBelow(f, k, kind)[a] < ExtremaBelow(f, k, kind)[b]
    decreases k
  {
    if k > 1 {
      var prev := ExtremaBelow(f, k - 1, kind);
      ExtremaBelowIncreasing(f, k - 1, kind);
      ExtremaBelowMembers(f, k - 1, kind);
      assert forall a :: 0 <= a < |prev| ==> prev[a] in prev;
    }
  }

  lemma {:induction false} ExtremaBelowEmpty(f: seq<real>, k: nat, kind: Extremum)
    requires k < |f|
    ensures ExtremaBelow(f, k, kind) == [] <==> forall i :: 1 <= i < k ==> !IsExtremum(f, i, kind)
    decreases k
  {
    if k > 1 {
      ExtremaBelowEmpty(f, k - 1, kind);
    }
  }

  /** Membership: exactly the interior indices whose value strictly exceeds (undercuts) both neighbours. */
  lemma ExtremaMembers(f: seq<real>, kind: Extremum)
    ensures forall i :: i in Extrema(f, kind) <==> 1 <= i < |f| - 1 && IsExtremum(f, i, kind)
  {
    if |f| > 0 {
      ExtremaBelowMembers(f, |f| - 1, kind);
    }
  }

  /**
   * The peaks (drops) are exactly the interior indices whose value strictly
   * exceeds (undercuts) both neighbours, listed in increasing order; there are
   * none exactly when no interior index qualifies, in particular when the
   * forecast has fewer than three values.
   */
  lemma ExtremaCharacterised(f: seq<real>, kind: Extremum)
    ensures forall i :: i in Extrema(f, kind) <==> 1 <= i < |f| - 1 && IsExtremum(f, i, kind)
    ensures forall a, b :: 0 <= a < b < |Extrema(f, kind)| ==> Extrema(f, kind)[a] < Extrema(f, kind)[b]
    ensures Extrema(f, kind) == [] <==> forall i :: 1 <= i < |f| - 1 ==> !IsExtremum(f, i, kind)
    ensures |f| < 3 ==> Extrema(f, kind) == []
  {
    ExtremaMembers(f, kind);
    if |f| > 0 {
      ExtremaBelowIncreasing(f, |f| - 1, kind);
      ExtremaBelowEmpty(f, |f| - 1, kind);
    }
  }

  /** No index is both a peak and a drop. */
  lemma PeaksAndDropsDisjoint(f: seq<real>)
    ensures forall i :: i in Extrema(f, Peak) ==> i !in Extrema(f, Drop)
  {
    ExtremaMembers(f, Peak);
    ExtremaMembers(f, Drop);
  }

  /** A peak is where an upward trend turns downward, a drop where a downward trend turns upward. */
  lemma ExtremaAreTurningPoints(f: seq<real>)
    ensures forall i :: i in Extrema(f, Peak) <==> 1 <= i < |f| - 1 && Trends(f)[i] == Up && Trends(f)[i + 1] == Down
    ensures forall i :: i in Extrema(f, Drop) <==> 1 <= i < |f| - 1 && Trends(f)[i] == Down && Trends(f)[i + 1] == Up
  {
    ExtremaMembers(f, Peak);
    ExtremaMembers(f, Drop);
    TrendsCharacterised(f);
  }

  /** A flat non-negative history projects a non-decreasing forecast. */
  lemma FlatHistoryNonDecreasing(revenue: seq<real>, monthly: bool)
    requires |revenue| > 0 && revenue[0] >= 0.0
    requires forall i :: 0 <= i < |revenue| ==> revenue[i] == revenue[0]
    ensures forall i :: 1 <= i < |Project(revenue, monthly)| ==>
      Project(revenue, monthly)[i - 1] <= Project(revenue, monthly)[i]
  {
    var f := Project(revenue, monthly);
    var n := |revenue|;
    forall i | 1 <= i < |f|
      ensures f[i - 1] <= f[i]
    {
      assert f[i - 1] == Grow(revenue[(i - 1) % n], i);
      assert f[i] == Grow(revenue[i % n], i + 1);
      assert revenue[(i - 1) % n] == revenue[0] && revenue[i % n] == revenue[0];
      GrowMonotoneInPeriods(revenue[0], i, i + 1);
    }
  }

  /** A flat non-negative history never projects a fall: no trend is down and there are no drops. */
  lemma FlatHistoryNeverFalls(revenue: seq<real>, monthly: bool)
    requires |revenue| > 0 && revenue[0] >= 0.0
    requires forall i :: 0 <= i < |revenue| ==> revenue[i] == revenue[0]
    ensures forall i :: 1 <= i < |Project(revenue, monthly)| ==> Trends(Project(revenue, monthly))[i] != Down
    ensures Extrema(Project(revenue, monthly), Drop) == []
  {
    var f := Project(revenue, monthly);
    FlatHistoryNonDecreasing(revenue, monthly);
    TrendsCharacterised(f);
    NoFallNoDrop(f);
  }

  lemma NoFallNoDrop(f: seq<real>)
    requires forall i :: 1 <= i < |f| ==> f[i - 1] <= f[i]
    ensures Extrema(f, Drop) == []
  {
    if |f| > 0 {
      ExtremaBelowEmpty(f, |f| - 1, Drop);
    }
  }

  // ---------------------------------------------------------------------------
  // Labels

  /** Labels are distinct, so no two chart points share a label. */
  lemma LabelsDistinct(monthly: bool, h: nat)
    ensures forall i, j :: 0 <= i < j < h ==> Labels(monthly, h)[i] != Labels(monthly, h)[j]
  {
    forall i, j | 0 <= i < j < h
      ensures Label(monthly, i) != Label(monthly, j)
    {
      var prefix := if monthly then "Month " else "Q";
      if Label(monthly, i) == Label(monthly, j) {
        assert Label(monthly, i)[|prefix|..] == NatToString(i + 1);
        assert Label(monthly, j)[|prefix|..] == NatToString(j + 1);
        NatToStringInjective(i + 1, j + 1);
      }
    }
  }

  // ---------------------------------------------------------------------------
  // Worked example

  /**
   * The built-in quarterly series 12000, 13500, 14200, 15000 grows to
   * 12600, 14883.75, 16438.28, 18232.59 (exact compounding rounded to cents),
   * rising after the first period, with no peak and no drop.
   */
  lemma {:induction false} QuarterlyFallbackExample()
    ensures Project([12000.0, 13500.0, 14200.0, 15000.0], false) == [12600.0, 14883.75, 16438.28, 18232.59]
    ensures Trends([12600.0, 14883.75, 16438.28, 18232.59]) == [Stable, Up, Up, Up]
    ensures Extrema([12600.0, 14883.75, 16438.28, 18232.59], Peak) == []
    ensures Extrema([12600.0, 14883.75, 16438.28, 18232.59], Drop) == []
  {
    var r := [12000.0, 13500.0, 14200.0, 15000.0];
    assert Pow(1.05, 1) == 1.05;
    assert Pow(1.05, 2) == 1.1025;
    assert Pow(1.05, 3) == 1.157625;
    assert Pow(1.05, 4) == 1.21550625;
    assert (1260000.0 + 0.5).Floor == 1260000;
    assert (1488375.0 + 0.5).Floor == 1488375;
    assert (1643827.5 + 0.5).Floor == 1643828;
    assert (1823259.375 + 0.5).Floor == 1823259;
    assert Grow(r[0], 1) == 12600.0;
    assert Grow(r[1], 2) == 14883.75;
    assert Grow(r[2], 3) == 16438.28;
    assert Grow(r[3], 4) == 18232.59;
    var f := [12600.0, 14883.75, 16438.28, 18232.59];
    assert !IsExtremum(f, 1, Peak) && !IsExtremum(f, 2, Peak);
    assert !IsExtremum(f, 1, Drop) && !IsExtremum(f, 2, Drop);
  }

  /** Labels for three quarters and for the first month. */
  lemma LabelExamples()
    ensures Labels(false, 3) == ["Q1", "Q2", "Q3"]
    ensures Label(true, 0) == "Month 1" && Label(true, 11) == "Month 12"
  {
    assert NatToString(1) == "1" && NatToString(2) == "2" && NatToString(3) == "3";
    assert NatToString(12) == "12";
    assert Labels(false, 3)[0] == "Q1" && Labels(false, 3)[1] == "Q2" && Labels(false, 3)[2] == "Q3";
  }
}
