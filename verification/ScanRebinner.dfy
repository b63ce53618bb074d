/**
 Rebinning a laser scan to a fixed number of bins. `d` and `t` stand for source count minus one and
 bin count minus one; the bin of a source is the nearest integer to `i * t / d`, halves upward.
 */
module ScanRebinner {
  import opened Options
  import opened Numbers

  datatype Sample = Value(r: real) | Infinite | NotANumber

  function NearestInteger(value: real): (k: int)
    ensures k as real <= value + 0.5 < k as real + 1.0
  {
    (value + 0.5).Floor
  }

  /** Bin `k` is the nearest one to source `i`: `i * t / d` lies within `[k - 1/2, k + 1/2)`. */
  ghost predicate InBin(i: int, k: int, d: int, t: int) {
    2 * (k * d) <= 2 * (i * t) + d < 2 * (k * d) + 2 * d
  }

  lemma Scaled(k: real, q: real, d: real)
    requires d > 0.0
    ensures k <= q <==> k * d <= q * d
  {
    if k <= q {
      assert (q - k) * d >= 0.0;
    } else {
      assert (k - q) * d > 0.0;
    }
  }

  function Target(i: int, d: int, t: int): (k: int)
    requires d > 0
  {
    NearestInteger((i * t) as real / d as real)
  }

  /** The computed bin is the nearest one, in exact arithmetic. */
  lemma TargetIsNearest(i: int, d: int, t: int)
    requires d > 0
    ensures InBin(i, Target(i, d, t), d, t)
  {
    hide NearestInteger;
    var v := (i * t) as real / d as real;
    var k := NearestInteger(v);
    assert v * d as real == (i * t) as real;
    Scaled(k as real - 0.5, v, d as real);
    Scaled(k as real + 0.5, v, d as real);
    assert (k as real - 0.5) * d as real == (k * d) as real - 0.5 * d as real;
    assert (k as real + 0.5) * d as real == (k * d) as real + 0.5 * d as real;
  }

  /** Sources map to bins monotonically. */
  lemma Monotone(i: int, i': int, k: int, k': int, d: int, t: int)
    requires d > 0 && t >= 0 && i <= i' && InBin(i, k, d, t) && InBin(i', k', d, t)
    ensures k <= k'
  {
    MulLe(i, i', t);
    assert (k' + 1) * d == k' * d + d;
    if k' + 1 <= k {
      MulLe(k' + 1, k, d);
    }
  }

  /** A source has one bin. */
  lemma Unique(i: int, k: int, k': int, d: int, t: int)
    requires d > 0 && t >= 0 && InBin(i, k, d, t) && InBin(i, k', d, t)
    ensures k == k'
  {
    Monotone(i, i, k, k', d, t);
    Monotone(i, i, k', k, d, t);
  }

  /** The bins of all sources are in range, the first and last at the ends. */
  lemma InRange(i: int, k: int, d: int, t: int)
    requires d > 0 && t >= 0 && 0 <= i <= d && InBin(i, k, d, t)
    ensures 0 <= k <= t && (i == 0 ==> k == 0) && (i == d ==> k == t)
  {
    assert InBin(0, 0, d, t) && d * t == t * d;
    assert InBin(d, t, d, t);
    hide InBin;
    Monotone(0, i, 0, k, d, t);
    Monotone(i, d, k, t, d, t);
    if i == 0 {
      Unique(0, 0, k, d, t);
    }
    if i == d {
      Unique(d, t, k, d, t);
    }
  }

  /** With at most as many sources as bins no two sources share a bin. */
  lemma NoCollision(i: int, i': int, k: int, k': int, d: int, t: int)
    requires 0 < d <= t && i < i' && InBin(i, k, d, t) && InBin(i', k', d, t)
    ensures k < k'
  {
    MulLe(i + 1, i', t);
    assert (i + 1) * t == i * t + t;
    if k' <= k {
      MulLe(k', k, d);
    }
  }

  /** With at least as many sources as bins every bin receives a source. */
  lemma EveryBinFilled(k: int, d: int, t: int) returns (i: int)
    requires 0 < t <= d && 0 <= k <= t
    ensures 0 <= i <= d && InBin(i, k, d, t)
  {
    i := 0;
    assert 0 * t == 0;
    MulLe(0, k, d);
    MulLe(k, t, d);
    assert d * t == t * d;
    while 2 * (i * t) + d < 2 * (k * d)
      invariant 0 <= i <= d
      invariant 2 * (i * t) + d < 2 * (k * d) + 2 * d
      decreases d - i
    {
      assert (i + 1) * t == i * t + t;
      if i == d {
        assert false;
      }
      i := i + 1;
    }
  }

  // ---- choosing among the sources of a bin

  const EPSILON: real := 0.000000000001


  predicate IsClose(a: real, b: real) {
    Abs(a - b) <= Max(EPSILON * Max(Abs(a), Abs(b)), EPSILON)
  }

  /** The chosen distance is no larger than another one, up to the tie tolerance. */
  ghost predicate NoFarther(chosen: real, other: real) {
    chosen <= other + EPSILON * Max(1.0, chosen)
  }

  lemma KeepsChoice(chosen: real, other: real)
    requires chosen >= 0.0 && other >= 0.0 && !(other < chosen && !IsClose(other, chosen))
    ensures NoFarther(chosen, other)
  {
  }

  lemma ImprovesChoice(chosen: real, other: real, better: real)
    requires NoFarther(chosen, other) && 0.0 <= better < chosen && other >= 0.0
    ensures NoFarther(better, other)
  {
  }

  datatype Scan = Scan(angleMin: real, angleIncrement: real, ranges: seq<Sample>, intensities: seq<Sample>)

  /** Angular distance from a source to the centre of a bin; `step` is the output's angle increment. */
  function AngleDistance(scan: Scan, i: nat, k: nat, step: real): (r: real)
    ensures r >= 0.0
  {
    Abs(scan.angleMin + i as real * scan.angleIncrement - k as real * step)
  }

  /** The state of a bin after the first `n` sources: empty, or holding its nearest source so far. */
  ghost predicate BinOk(scan: Scan, step: real, d: int, t: int, n: nat, k: nat, selected: Option<nat>, distance: Option<real>) {
    && (selected.Some? <==> distance.Some?)
    && (selected.Some? ==>
          selected.value < n && InBin(selected.value, k, d, t) && distance.value == AngleDistance(scan, selected.value, k, step))
    && (forall j: nat :: j < n && InBin(j, k, d, t) ==> distance.Some? && NoFarther(distance.value, AngleDistance(scan, j, k, step)))
  }

  ghost predicate BinsOk(scan: Scan, step: real, d: int, t: int, n: nat, selected: seq<Option<nat>>, distances: seq<Option<real>>) {
    && |selected| == |distances| == t + 1
    && forall k: nat :: k <= t ==> BinOk(scan, step, d, t, n, k, selected[k], distances[k])
  }

  lemma NextSource(scan: Scan, step: real, d: int, t: int, n: nat, k: nat, selected: Option<nat>, distance: Option<real>, take: bool)
    requires BinOk(scan, step, d, t, n, k, selected, distance) && InBin(n, k, d, t)
    requires var dist := AngleDistance(scan, n, k, step);
             take <==> distance.None? || (dist < distance.value && !IsClose(dist, distance.value))
    ensures BinOk(scan, step, d, t, n + 1, k, if take then Some(n) else selected, if take then Some(AngleDistance(scan, n, k, step)) else distance)
  {
    hide InBin, AngleDistance, IsClose, NoFarther;
    var dist := AngleDistance(scan, n, k, step);
    if take && distance.Some? {
      forall j: nat | j < n && InBin(j, k, d, t)
        ensures NoFarther(dist, AngleDistance(scan, j, k, step))
      {
        ImprovesChoice(distance.value, AngleDistance(scan, j, k, step), dist);
      }
    }
    if !take {
      KeepsChoice(distance.value, dist);
    }
    SelfNoFarther(dist);
  }

  lemma SelfNoFarther(dist: real)
    requires dist >= 0.0
    ensures NoFarther(dist, dist)
  {
  }

  /** For every bin: the index of its nearest source, or none if no source falls into it. */
  method SelectSources(scan: Scan, bins: nat, step: real) returns (selected: seq<Option<nat>>, distances: seq<Option<real>>)
    requires |scan.ranges| >= 2 && bins >= 2
    ensures |selected| == bins
    ensures BinsOk(scan, step, |scan.ranges| - 1, bins - 1, |scan.ranges|, selected, distances)
  {
    var d, t := |scan.ranges| - 1, bins - 1;
    selected := seq(bins, i => None);
    distances := seq(bins, i => None);
    for n := 0 to |scan.ranges|
      invariant BinsOk(scan, step, d, t, n, selected, distances)
    {
      hide InBin, IsClose, AngleDistance, NoFarther, Target;
      TargetIsNearest(n, d, t);
      var k := Target(n, d, t);
      InRange(n, k, d, t);
      var dist := AngleDistance(scan, n, k, step);
      var take := distances[k].None? || (dist < distances[k].value && !IsClose(dist, distances[k].value));
      AdvanceBins(scan, step, d, t, n, k, selected, distances, take);
      if take {
        selected := selected[k := Some(n)];
        distances := distances[k := Some(dist)];
      }
    }
  }

  lemma AdvanceBins(scan: Scan, step: real, d: int, t: int, n: nat, k: nat, selected: seq<Option<nat>>, distances: seq<Option<real>>, take: bool)
    requires 0 < d && 0 <= t && BinsOk(scan, step, d, t, n, selected, distances) && k <= t && InBin(n, k, d, t)
    requires var dist := AngleDistance(scan, n, k, step);
             take <==> distances[k].None? || (dist < distances[k].value && !IsClose(dist, distances[k].value))
    ensures BinsOk(scan, step, d, t, n + 1, if take then selected[k := Some(n)] else selected,
                   if take then distances[k := Some(AngleDistance(scan, n, k, step))] else distances)
  {
    hide InBin, AngleDistance, IsClose, NoFarther;
    NextSource(scan, step, d, t, n, k, selected[k], distances[k], take);
    forall k': nat | k' <= t && k' != k
      ensures BinOk(scan, step, d, t, n + 1, k', selected[k'], distances[k'])
    {
      if InBin(n, k', d, t) {
        Unique(n, k, k', d, t);
      }
    }
  }

  datatype Outcome = InvalidBins | TooFewRanges | Rebinned(ranges: seq<Sample>, intensities: seq<Sample>)

  function IntensityOf(scan: Scan, i: nat): Sample {
    if i < |scan.intensities| then scan.intensities[i] else Value(0.0)
  }

  /** A bin of the output holds a nearest source falling into it, or infinity when none does. */
  ghost predicate HoldsNearest(scan: Scan, step: real, bins: nat, k: nat, range: Sample, intensity: Sample) {
    var d, t := |scan.ranges| - 1, bins - 1;
    if exists j: nat :: j <= d && InBin(j, k, d, t) then
      exists i: nat :: i <= d && InBin(i, k, d, t) && range == scan.ranges[i] && intensity == IntensityOf(scan, i) &&
        forall j: nat :: j <= d && InBin(j, k, d, t) ==> AsNear(scan, step, i, j, k)
    else range == Infinite && intensity == Value(0.0)
  }

  /** On the angles: source `i` is no farther than source `j` from where bin `k` is centred, up to a tie of 1e-12. */
  ghost predicate AsNear(scan: Scan, step: real, i: nat, j: nat, k: nat) {
    var centre := k as real * step;
    var a, b := scan.angleMin + i as real * scan.angleIncrement - centre, scan.angleMin + j as real * scan.angleIncrement - centre;
    var tie := 0.000000000001 * (if a > 1.0 then a else if a < -1.0 then -a else 1.0);
    if b >= 0.0 then -b - tie <= a <= b + tie else b - tie <= a <= -b + tie
  }

  lemma NoFartherIsAsNear(scan: Scan, step: real, i: nat, j: nat, k: nat)
    ensures AsNear(scan, step, i, j, k) <==> NoFarther(AngleDistance(scan, i, k, step), AngleDistance(scan, j, k, step))
  {
    var a := scan.angleMin + i as real * scan.angleIncrement - k as real * step;
    var b := scan.angleMin + j as real * scan.angleIncrement - k as real * step;
    assert AngleDistance(scan, i, k, step) == Abs(a) && AngleDistance(scan, j, k, step) == Abs(b);
  }

  lemma SelectedHoldsNearest(scan: Scan, step: real, bins: nat, k: nat, selected: Option<nat>, distance: Option<real>)
    requires |scan.ranges| >= 2 && bins >= 2 && BinOk(scan, step, |scan.ranges| - 1, bins - 1, |scan.ranges|, k, selected, distance)
    ensures HoldsNearest(scan, step, bins, k,
                         if selected.Some? then scan.ranges[selected.value] else Infinite,
                         if selected.Some? then IntensityOf(scan, selected.value) else Value(0.0))
  {
    hide InBin, AngleDistance, NoFarther, AsNear;
    forall i: nat, j: nat
      ensures AsNear(scan, step, i, j, k) <==> NoFarther(AngleDistance(scan, i, k, step), AngleDistance(scan, j, k, step))
    {
      NoFartherIsAsNear(scan, step, i, j, k);
    }
  }

  lemma DiagonalBins(i: int, d: int)
    requires d > 0
    ensures InBin(i, i, d, d)
  {
  }

  lemma SameCount(scan: Scan, step: real, bins: nat, k: nat)
    requires |scan.ranges| == bins >= 2 && k < bins
    ensures HoldsNearest(scan, step, bins, k, scan.ranges[k], IntensityOf(scan, k))
  {
    hide InBin, AngleDistance, NoFarther, AsNear;
    var d := bins - 1;
    DiagonalBins(k, d);
    forall j: nat | j <= d && InBin(j, k, d, d)
      ensures j == k
    {
      DiagonalBins(j, d);
      Unique(j, j, k, d, d);
    }
    SelfNoFarther(AngleDistance(scan, k, k, step));
    NoFartherIsAsNear(scan, step, k, k, k);
  }

  /** With at least as many sources as bins, every bin has a source. */
  lemma NoEmptyBin(scan: Scan, step: real, bins: nat, selected: seq<Option<nat>>, distances: seq<Option<real>>)
    requires |scan.ranges| >= bins >= 2 && BinsOk(scan, step, |scan.ranges| - 1, bins - 1, |scan.ranges|, selected, distances)
    ensures forall k: nat :: k < bins ==> selected[k].Some?
  {
    forall k: nat | k < bins
      ensures selected[k].Some?
    {
      var i := EveryBinFilled(k, |scan.ranges| - 1, bins - 1);
      hide InBin, AngleDistance, NoFarther;
      assert BinOk(scan, step, |scan.ranges| - 1, bins - 1, |scan.ranges|, k, selected[k], distances[k]);
    }
  }

  /** With at most as many sources as bins, every source has a bin of its own. */
  lemma NoLostSource(scan: Scan, step: real, bins: nat, selected: seq<Option<nat>>, distances: seq<Option<real>>)
    requires 2 <= |scan.ranges| <= bins && BinsOk(scan, step, |scan.ranges| - 1, bins - 1, |scan.ranges|, selected, distances)
    ensures forall i: nat :: i < |scan.ranges| ==> Some(i) in selected
  {
    var d, t := |scan.ranges| - 1, bins - 1;
    forall i: nat | i < |scan.ranges|
      ensures Some(i) in selected
    {
      TargetIsNearest(i, d, t);
      var k := Target(i, d, t);
      InRange(i, k, d, t);
      assert BinOk(scan, step, d, t, |scan.ranges|, k, selected[k], distances[k]);
      assert selected[k].Some? by {
        hide InBin, AngleDistance, NoFarther;
      }
      var j := selected[k].value;
      if i < j {
        NoCollision(i, j, k, k, d, t);
      } else if j < i {
        NoCollision(j, i, k, k, d, t);
      }
      assert selected[k] == Some(i);
    }
  }

  /** Where each bin's values come from: a source, or nowhere. */
  ghost predicate From(scan: Scan, source: Option<nat>, range: Sample, intensity: Sample) {
    match source
    case None => range == Infinite && intensity == Value(0.0)
    case Some(i) => i < |scan.ranges| && range == scan.ranges[i] && intensity == IntensityOf(scan, i)
  }

  /** The whole rebinning; `fullCircle` is the angle of a full turn, `sources` tells where each bin's values come from. */
  method RebinScan(scan: Scan, bins: int, fullCircle: real) returns (r: Outcome, sources: seq<Option<nat>>)
    ensures r == InvalidBins <==> bins < 2
    ensures r == TooFewRanges <==> bins >= 2 && |scan.ranges| < 2
    ensures r.Rebinned? ==>
              && |r.ranges| == |r.intensities| == bins
              && forall k: nat :: k < bins ==> HoldsNearest(scan, fullCircle / (bins - 1) as real, bins, k, r.ranges[k], r.intensities[k])
    ensures r.Rebinned? ==> |sources| == bins && forall k: nat :: k < bins ==> From(scan, sources[k], r.ranges[k], r.intensities[k])
    ensures r.Rebinned? && |scan.ranges| >= bins ==> forall k: nat :: k < bins ==> sources[k].Some?
    ensures r.Rebinned? && |scan.ranges| <= bins ==> forall i: nat :: i < |scan.ranges| ==> Some(i) in sources
  {
    hide HoldsNearest;
    sources := [];
    if bins < 2 {
      return InvalidBins, sources;
    }
    if |scan.ranges| < 2 {
      return TooFewRanges, sources;
    }
    var step := fullCircle / (bins - 1) as real;
    var ranges, intensities := [], [];
    if |scan.ranges| == bins {
      for k := 0 to bins
        invariant |ranges| == |intensities| == |sources| == k
        invariant forall m: nat :: m < k ==> sources[m] == Some(m) && From(scan, sources[m], ranges[m], intensities[m])
        invariant forall m: nat :: m < k ==> HoldsNearest(scan, step, bins, m, ranges[m], intensities[m])
      {
        SameCount(scan, step, bins, k);
        sources := sources + [Some(k)];
        ranges, intensities := ranges + [scan.ranges[k]], intensities + [IntensityOf(scan, k)];
      }
      assert forall i: nat :: i < bins ==> sources[i] == Some(i);
      return Rebinned(ranges, intensities), sources;
    }
    var selected, distances := SelectSources(scan, bins, step);
    if |scan.ranges| >= bins {
      NoEmptyBin(scan, step, bins, selected, distances);
    } else {
      NoLostSource(scan, step, bins, selected, distances);
    }
    for k := 0 to bins
      invariant |ranges| == |intensities| == k
      invariant forall m: nat :: m < k ==> From(scan, selected[m], ranges[m], intensities[m])
      invariant forall m: nat :: m < k ==> HoldsNearest(scan, step, bins, m, ranges[m], intensities[m])
    {
      SelectedHoldsNearest(scan, step, bins, k, selected[k], distances[k]);
      if selected[k].None? {
        ranges, intensities := ranges + [Infinite], intensities + [Value(0.0)];
      } else {
        var i := selected[k].value;
        ranges, intensities := ranges + [scan.ranges[i]], intensities + [IntensityOf(scan, i)];
      }
    }
    return Rebinned(ranges, intensities), selected;
  }
}
