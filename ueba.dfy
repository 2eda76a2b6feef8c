/** The behavioural risk scorer (UEBA): a pretrained detector when one is
    loaded, and a z-score heuristic over the accumulated baseline otherwise. */
module Ueba {
  import opened Wrappers

  /** Number of behavioural features in one observation. */
  const Dim: nat := 7

  /** Calibration of the detector path: risk = 50 - 80 * raw. */
  const ModelCentre: real := 50.0
  const ModelScale: real := 80.0
  /** Calibration of the fallback path: risk = 20 + 15 * mean |z|. */
  const FallbackBase: real := 20.0
  const FallbackSlope: real := 15.0

  /** One event's behavioural attributes, in the schema order every producer uses. */
  datatype FeatureVector = FeatureVector(
    sessionDuration: real,
    failedLogins: real,
    accessHour: real,
    deviceTrust: real,
    privilegeChange: real,
    externalConn: real,
    mfaBypass: real)
  {
    /** The values in schema order, as the scorer reads them out of the record. */
    function Values(): (v: seq<real>)
      ensures |v| == Dim
      ensures v[0] == sessionDuration && v[6] == mfaBypass
    {
      [sessionDuration, failedLogins, accessHour, deviceTrust, privilegeChange, externalConn, mfaBypass]
    }
  }

  type Observation = seq<real>
  type Baseline = seq<Observation>

  /** The decision function of a pretrained detector (higher = less anomalous);
      None stands for a call that raises. */
  type Detector = Observation -> Option<real>

  /** The square root of the numeric library, known only to be non-negative
      and to map 0 to 0. */
  type Sqrt = f: real -> real | (forall x: real :: f(x) >= 0.0) && f(0.0) == 0.0
    witness (x: real) => 0.0

  /** Every stored observation has the full feature width. */
  predicate WellFormed(b: Baseline)
  {
    forall i :: 0 <= i < |b| ==> |b[i]| == Dim
  }

  function Abs(x: real): real
  {
    if x < 0.0 then -x else x
  }

  /** n, raised to 1 when smaller: the guard against an empty denominator. */
  function AtLeastOne(n: int): (r: nat)
    ensures r >= 1 && r >= n
  {
    if n < 1 then 1 else n
  }

  /** x limited to the risk range [0, 100]. */
  function Clamp(x: real): (r: real)
    ensures 0.0 <= r <= 100.0
    ensures 0.0 <= x <= 100.0 ==> r == x
    ensures x < 0.0 ==> r == 0.0
    ensures x > 100.0 ==> r == 100.0
  {
    if x > 100.0 then 100.0 else if x < 0.0 then 0.0 else x
  }

  function Sum(s: seq<real>): real
  {
    if s == [] then 0.0 else s[0] + Sum(s[1..])
  }

  lemma {:induction false} SumNonNegative(s: seq<real>)
    requires forall i :: 0 <= i < |s| ==> s[i] >= 0.0
    ensures Sum(s) >= 0.0
  {
    if s != [] {
      SumNonNegative(s[1..]);
    }
  }

  lemma {:induction false} SumOfConstant(s: seq<real>, c: real)
    requires forall i :: 0 <= i < |s| ==> s[i] == c
    ensures Sum(s) == |s| as real * c
  {
    if s != [] {
      SumOfConstant(s[1..], c);
    }
  }

  /** Feature j of every observation, oldest first. */
  function Column(b: Baseline, j: nat): (col: seq<real>)
    requires WellFormed(b) && j < Dim
    ensures |col| == |b|
  {
    seq(|b|, i requires 0 <= i < |b| => b[i][j])
  }

  function Mean(col: seq<real>): real
    requires |col| > 0
  {
    Sum(col) / (|col| as real)
  }

  /** Per-feature means over the whole baseline. */
  function Means(b: Baseline): (m: seq<real>)
    requires WellFormed(b) && |b| > 0
    ensures |m| == Dim
    ensures forall j :: 0 <= j < Dim ==> m[j] * (|b| as real) == Sum(Column(b, j))
  {
    seq(Dim, j requires 0 <= j < Dim => Mean(Column(b, j)))
  }

  function SquaredDeviations(col: seq<real>, m: real): (d: seq<real>)
    ensures |d| == |col|
  {
    seq(|col|, i requires 0 <= i < |col| => (col[i] - m) * (col[i] - m))
  }

  lemma SquareNonNegative(x: real)
    ensures x * x >= 0.0
  {
    if x < 0.0 {
      assert x * x == (-x) * (-x);
    }
  }

  lemma SquaredDeviationsNonNegative(col: seq<real>, m: real)
    ensures forall i :: 0 <= i < |col| ==> SquaredDeviations(col, m)[i] >= 0.0
  {
    forall i | 0 <= i < |col|
      ensures SquaredDeviations(col, m)[i] >= 0.0
    {
      SquareNonNegative(col[i] - m);
    }
  }

  /** Sample variance about m, with denominator max(1, n - 1). */
  function Variance(col: seq<real>, m: real): (v: real)
    ensures v >= 0.0
  {
    var d := SquaredDeviations(col, m);
    SquaredDeviationsNonNegative(col, m);
    SumNonNegative(d);
    Sum(d) / (AtLeastOne(|col| - 1) as real)
  }

  /** The standard deviation used as a divisor: sqrt(v), or 1.0 when that is zero. */
  function StdDev(v: real, sqrt: Sqrt): (s: real)
    ensures s > 0.0
    ensures sqrt(v) != 0.0 ==> s == sqrt(v)
    ensures sqrt(v) == 0.0 ==> s == 1.0
  {
    var root := sqrt(v);
    if root == 0.0 then 1.0 else root
  }

  /** The deviations the fallback loop computes, one per mean. */
  function Stds(b: Baseline, means: seq<real>, sqrt: Sqrt): (stds: seq<real>)
    requires WellFormed(b) && |means| == Dim
    ensures |stds| == Dim
    ensures forall j :: 0 <= j < Dim ==> stds[j] > 0.0
    ensures forall j :: 0 <= j < Dim && sqrt(Variance(Column(b, j), means[j])) != 0.0 ==>
      stds[j] == sqrt(Variance(Column(b, j), means[j]))
    ensures forall j :: 0 <= j < Dim && sqrt(Variance(Column(b, j), means[j])) == 0.0 ==>
      stds[j] == 1.0
  {
    seq(Dim, j requires 0 <= j < Dim => StdDev(Variance(Column(b, j), means[j]), sqrt))
  }

  function AbsZ(vec: seq<real>, means: seq<real>, stds: seq<real>): (z: seq<real>)
    requires |means| == |vec| && |stds| == |vec|
    requires forall j :: 0 <= j < |stds| ==> stds[j] > 0.0
    ensures |z| == |vec|
  {
    seq(|vec|, j requires 0 <= j < |vec| => Abs((vec[j] - means[j]) / stds[j]))
  }

  /** The averaged absolute z-score of vec. */
  function MeanAbsZ(vec: seq<real>, means: seq<real>, stds: seq<real>): (z: real)
    requires |means| == |vec| && |stds| == |vec|
    requires forall j :: 0 <= j < |stds| ==> stds[j] > 0.0
    ensures z >= 0.0
  {
    var zs := AbsZ(vec, means, stds);
    SumNonNegative(zs);
    Sum(zs) / (AtLeastOne(|vec|) as real)
  }

  /** The statistical fallback over a baseline that already holds vec. */
  function FallbackRisk(b: Baseline, vec: Observation, sqrt: Sqrt): (r: real)
    requires WellFormed(b) && |b| > 0 && |vec| == Dim
    ensures FallbackBase <= r <= 100.0
  {
    var means := Means(b);
    Clamp(FallbackBase + FallbackSlope * MeanAbsZ(vec, means, Stds(b, means, sqrt)))
  }

  /** The detector path: its raw decision value mapped onto [0, 100]. */
  function ModelRisk(raw: real): (r: real)
    ensures 0.0 <= r <= 100.0
    ensures r == 0.0 <==> raw >= (ModelCentre / ModelScale)
    ensures r == 100.0 <==> raw <= (ModelCentre - 100.0) / ModelScale
  {
    Clamp(ModelCentre - raw * ModelScale)
  }

  /** The risk of vec, given the baseline after vec was appended to it. */
  function Risk(b: Baseline, vec: Observation, detector: Option<Detector>, sqrt: Sqrt): (r: real)
    requires WellFormed(b) && |b| > 0 && |vec| == Dim
    ensures 0.0 <= r <= 100.0
  {
    match detector
    case Some(decide) =>
      (match decide(vec)
       case Some(raw) => ModelRisk(raw)
       case None => FallbackRisk(b, vec, sqrt))
    case None => FallbackRisk(b, vec, sqrt)
  }

  /** A failing decision function costs nothing: the call scores as if no
      detector were loaded. */
  lemma DetectorFailureFallsBack(b: Baseline, vec: Observation, decide: Detector, sqrt: Sqrt)
    requires WellFormed(b) && |b| > 0 && |vec| == Dim
    requires decide(vec) == None
    ensures Risk(b, vec, Some(decide), sqrt) == Risk(b, vec, None, sqrt)
    ensures FallbackBase <= Risk(b, vec, Some(decide), sqrt)
  {
  }

  /** A column whose entries all equal c has mean c and variance zero. */
  lemma ConstantColumn(col: seq<real>, c: real)
    requires |col| > 0
    requires forall i :: 0 <= i < |col| ==> col[i] == c
    ensures Mean(col) == c
    ensures Variance(col, c) == 0.0
  {
    SumOfConstant(col, c);
    var n := |col| as real;
    assert Sum(col) == n * c;
    assert (n * c) / n == c;
    SumOfConstant(SquaredDeviations(col, c), 0.0);
  }

  /** With every mean equal to vec and every deviation 1.0, each |z| is zero. */
  lemma CentredZScoreIsZero(vec: seq<real>, means: seq<real>, stds: seq<real>)
    requires |means| == |vec| && |stds| == |vec|
    requires forall j :: 0 <= j < |vec| ==> means[j] == vec[j] && stds[j] == 1.0
    ensures MeanAbsZ(vec, means, stds) == 0.0
  {
    SumOfConstant(AbsZ(vec, means, stds), 0.0);
  }

  /** When every observation equals vec, every deviation is zero, every
      standard deviation is replaced by 1.0, and the fallback gives its base. */
  lemma UniformBaselineScoresBase(b: Baseline, vec: Observation, sqrt: Sqrt)
    requires WellFormed(b) && |b| > 0 && |vec| == Dim
    requires forall i :: 0 <= i < |b| ==> b[i] == vec
    ensures FallbackRisk(b, vec, sqrt) == FallbackBase
  {
    var means := Means(b);
    forall j | 0 <= j < Dim
      ensures means[j] == vec[j]
      ensures Variance(Column(b, j), means[j]) == 0.0
    {
      ConstantColumn(Column(b, j), vec[j]);
    }
    var stds := Stds(b, means, sqrt);
    CentredZScoreIsZero(vec, means, stds);
  }

  /** The statistical model of a loaded-or-not detector and the growing
      history of every observation scored so far. */
  class UebaModel {
    const detector: Option<Detector>
    const sqrt: Sqrt
    var baseline: Baseline

    ghost predicate Valid()
      reads this
    {
      WellFormed(baseline)
    }

    /** A scorer with an empty history; `detector` is whatever the artifact
        loader produced (None when there is no artifact or loading failed). */
    constructor (detector: Option<Detector>, sqrt: Sqrt)
      ensures Valid()
      ensures this.detector == detector && this.sqrt == sqrt
      ensures baseline == []
    {
      this.detector := detector;
      this.sqrt := sqrt;
      baseline := [];
    }

    /** Appends fv to the history, then scores it with the detector, falling
        back to the z-score heuristic when there is none or it fails. */
    method Score(fv: FeatureVector) returns (risk: real)
      requires Valid()
      modifies this
      ensures Valid()
      ensures baseline == old(baseline) + [fv.Values()]
      ensures |baseline| > 0
      ensures risk == Risk(baseline, fv.Values(), detector, sqrt)
      ensures 0.0 <= risk <= 100.0
    {
      var vec := fv.Values();
      baseline := baseline + [vec];
      if detector.Some? {
        var raw := detector.value(vec);
        if raw.Some? {
          risk := ModelRisk(raw.value);
          return;
        }
      }
      risk := FallbackScore(baseline, vec, sqrt);
    }
  }

  /** The z-score heuristic over a non-empty history b, computing the
      per-feature deviations one column at a time. */
  method FallbackScore(b: Baseline, vec: Observation, sqrt: Sqrt) returns (risk: real)
    requires WellFormed(b) && |b| > 0 && |vec| == Dim
    ensures risk == FallbackRisk(b, vec, sqrt)
    ensures FallbackBase <= risk <= 100.0
  {
    var means := Means(b);
    var stds: seq<real> := [];
    var j := 0;
    while j < |means|
      invariant 0 <= j <= |means|
      invariant |stds| == j
      invariant forall k :: 0 <= k < j ==> stds[k] == StdDev(Variance(Column(b, k), means[k]), sqrt)
    {
      var vals := Column(b, j);
      var v := Variance(vals, means[j]);
      stds := stds + [StdDev(v, sqrt)];
      j := j + 1;
    }
    assert stds == Stds(b, means, sqrt);
    risk := Clamp(FallbackBase + FallbackSlope * MeanAbsZ(vec, means, stds));
  }

  /** On a fresh scorer without a detector the first score is exactly the
      fallback base: one observation has zero variance everywhere. */
  method ColdStartScore(fv: FeatureVector, sqrt: Sqrt) returns (risk: real)
    ensures risk == FallbackBase
  {
    var m := new UebaModel(None, sqrt);
    risk := m.Score(fv);
    UniformBaselineScoresBase(m.baseline, fv.Values(), sqrt);
  }
}
