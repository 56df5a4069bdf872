/** The frame step shared by the two HUD renderers (`update` in
    tracking_error_rolling.py and in flight_rolling.py), written once and
    parametrised by the y-axes: which series each axis shows, its minimum
    range and its padding fraction. Each frame reads the virtual clock, finds
    the played prefix, slides the x-window, and rescales every axis from the
    samples inside the window. Widget calls become state fields. */
module WindowedPlayback {
  import opened Common
  import VirtualClock

  predicate Sorted(t: seq<real>) {
    forall i, j :: 0 <= i < j < |t| ==> t[i] <= t[j]
  }

  /** `np.searchsorted(t, vt)`: the leftmost insertion point of `vt`, found by
      bisection. */
  method SearchSorted(t: seq<real>, vt: real) returns (idx: nat)
    requires Sorted(t)
    ensures idx <= |t|
    ensures forall j :: 0 <= j < idx ==> t[j] < vt
    ensures forall j :: idx <= j < |t| ==> vt <= t[j]
  {
    var lo, hi := 0, |t|;
    while lo < hi
      invariant 0 <= lo <= hi <= |t|
      invariant forall j :: 0 <= j < lo ==> t[j] < vt
      invariant forall j :: hi <= j < |t| ==> vt <= t[j]
    {
      var mid := (lo + hi) / 2;
      if t[mid] < vt {
        lo := mid + 1;
      } else {
        hi := mid;
      }
    }
    idx := lo;
  }

  /** The mask `(t >= lo) & (t <= hi)` as the increasing list of the indices it
      selects. */
  function Mask(t: seq<real>, lo: real, hi: real): (r: seq<nat>)
    ensures |r| <= |t|
    ensures forall k :: 0 <= k < |r| ==> r[k] < |t|
    ensures forall k, l :: 0 <= k < l < |r| ==> r[k] < r[l]
    ensures forall i :: 0 <= i < |t| ==> (i in r <==> lo <= t[i] <= hi)
  {
    if t == [] then []
    else
      var n := |t| - 1;
      var prev := Mask(t[..n], lo, hi);
      assert forall i :: 0 <= i < n ==> t[..n][i] == t[i];
      if lo <= t[n] <= hi then prev + [n] else prev
  }

  /** `ys[mask]`: the entries of `ys` at the given indices, in order. */
  function Select(ys: seq<real>, idx: seq<nat>): (r: seq<real>)
    requires forall k :: 0 <= k < |idx| ==> idx[k] < |ys|
    ensures |r| == |idx|
    ensures forall k :: 0 <= k < |idx| ==> r[k] == ys[idx[k]]
  {
    seq(|idx|, k requires 0 <= k < |idx| => ys[idx[k]])
  }

  function RealMin(a: real, b: real): real {
    if a <= b then a else b
  }

  function RealMax(a: real, b: real): real {
    if a >= b then a else b
  }

  /** `.min()` of a non-empty array: a member no greater than any other. */
  function SeqMin(s: seq<real>): (m: real)
    requires |s| > 0
    ensures m in s
    ensures forall k :: 0 <= k < |s| ==> m <= s[k]
  {
    if |s| == 1 then s[0] else RealMin(s[0], SeqMin(s[1..]))
  }

  /** `.max()` of a non-empty array: a member no smaller than any other. */
  function SeqMax(s: seq<real>): (m: real)
    requires |s| > 0
    ensures m in s
    ensures forall k :: 0 <= k < |s| ==> s[k] <= m
  {
    if |s| == 1 then s[0] else RealMax(s[0], SeqMax(s[1..]))
  }

  /** The minimum over two arrays together is the smaller of their minima
      (flight_rolling.py takes `min(win_ref.min(), win_alt.min())`). */
  lemma {:induction false} SeqMinConcat(a: seq<real>, b: seq<real>)
    requires |a| > 0 && |b| > 0
    ensures SeqMin(a + b) == RealMin(SeqMin(a), SeqMin(b))
  {
    if |a| == 1 {
      assert (a + b)[1..] == b;
    } else {
      assert (a + b)[1..] == a[1..] + b;
      SeqMinConcat(a[1..], b);
    }
  }

  lemma {:induction false} SeqMaxConcat(a: seq<real>, b: seq<real>)
    requires |a| > 0 && |b| > 0
    ensures SeqMax(a + b) == RealMax(SeqMax(a), SeqMax(b))
  {
    if |a| == 1 {
      assert (a + b)[1..] == b;
    } else {
      assert (a + b)[1..] == a[1..] + b;
      SeqMaxConcat(a[1..], b);
    }
  }

  /** One y-axis: the series it shows, its minimum visible range and the
      fraction of the data span added on each side. */
  datatype AxisSpec = AxisSpec(series: seq<nat>, minRange: real, padFraction: real)

  /** An axis is rescaled only when the window holds more than this many
      samples. */
  const MinSamples: nat := 5

  /** The tracking-error HUD: two independent axes, e and its derivative. */
  const TrackingAxes: seq<AxisSpec> := [AxisSpec([0], 10.0, 0.15), AxisSpec([1], 10.0, 0.15)]

  /** The altitude HUD: one axis shared by the reference and the altitude. */
  const FlightAxes: seq<AxisSpec> := [AxisSpec([0, 1], 50.0, 0.20)]

  predicate AxisFits(axis: AxisSpec, nSeries: nat) {
    |axis.series| > 0 && (forall m :: 0 <= m < |axis.series| ==> axis.series[m] < nSeries)
    && 0.0 <= axis.minRange && 0.0 <= axis.padFraction
  }

  predicate WellFormed(t: seq<real>, series: seq<seq<real>>, axes: seq<AxisSpec>) {
    (forall k :: 0 <= k < |series| ==> |series[k]| == |t|)
    && forall a :: 0 <= a < |axes| ==> AxisFits(axes[a], |series|)
  }

  /** The windowed samples of every series an axis shows, one after another. */
  function Pool(series: seq<seq<real>>, which: seq<nat>, idx: seq<nat>): (r: seq<real>)
    requires forall m :: 0 <= m < |which| ==> which[m] < |series|
    requires forall m, k :: 0 <= m < |which| && 0 <= k < |idx| ==> idx[k] < |series[which[m]]|
    ensures |which| > 0 && |idx| > 0 ==> |r| > 0
  {
    if which == [] then [] else Select(series[which[0]], idx) + Pool(series, which[1..], idx)
  }

  /** Every windowed sample of every series of the axis is in the pool. */
  lemma {:induction false} PoolMembers(series: seq<seq<real>>, which: seq<nat>, idx: seq<nat>)
    requires forall m :: 0 <= m < |which| ==> which[m] < |series|
    requires forall m, k :: 0 <= m < |which| && 0 <= k < |idx| ==> idx[k] < |series[which[m]]|
    ensures forall m, k :: 0 <= m < |which| && 0 <= k < |idx| ==> series[which[m]][idx[k]] in Pool(series, which, idx)
  {
    if which != [] {
      var head := Select(series[which[0]], idx);
      var rest := Pool(series, which[1..], idx);
      PoolMembers(series, which[1..], idx);
      forall m, k | 0 <= m < |which| && 0 <= k < |idx|
        ensures series[which[m]][idx[k]] in head + rest
      {
        if m == 0 {
          assert head[k] == series[which[0]][idx[k]];
        } else {
          assert which[1..][m - 1] == which[m];
        }
      }
    }
  }

  /** The autoscale rule: a span below the minimum range is widened to exactly
      that range around its midpoint; otherwise both ends are padded by a
      fraction of the span. For data extremes lo <= hi the new range contains
      [lo, hi] and is at least the minimum range wide. */
  function AutoRange(lo: real, hi: real, minRange: real, padFraction: real): (r: (real, real))
    ensures lo <= hi && 0.0 <= minRange && 0.0 <= padFraction ==>
              r.0 <= lo && hi <= r.1 && minRange <= r.1 - r.0
  {
    if hi - lo < minRange then
      var mid := (lo + hi) / 2.0;
      (mid - minRange / 2.0, mid + minRange / 2.0)
    else
      var span := hi - lo;
      assert 0.0 <= padFraction && 0.0 <= span ==> 0.0 <= padFraction * span;
      var pad := padFraction * span;
      (lo - pad, hi + pad)
  }

  /** The two shapes of the range: exactly the minimum range centred on the
      midpoint of [lo, hi], or the span grown by the padding fraction on each
      side, (1 + 2 * padFraction) times the span in all. */
  lemma AutoRangeShape(lo: real, hi: real, minRange: real, padFraction: real)
    ensures var r := AutoRange(lo, hi, minRange, padFraction);
            hi - lo < minRange ==> r.1 - r.0 == minRange && r.0 + r.1 == lo + hi
    ensures var r := AutoRange(lo, hi, minRange, padFraction);
            minRange <= hi - lo ==> r.1 - r.0 == (1.0 + 2.0 * padFraction) * (hi - lo)
                                    && lo - r.0 == r.1 - hi == padFraction * (hi - lo)
  {
    assert (1.0 + 2.0 * padFraction) * (hi - lo) == (hi - lo) + 2.0 * (padFraction * (hi - lo));
  }

  /** The windowed samples of every series the axis shows, one series after
      another (`e[mask]`; on the altitude HUD `win_ref` and `win_alt`
      together). It holds every sample of those series inside the window. */
  function WindowPool(t: seq<real>, series: seq<seq<real>>, axis: AxisSpec, lo: real, hi: real): (r: seq<real>)
    requires (forall k :: 0 <= k < |series| ==> |series[k]| == |t|) && AxisFits(axis, |series|)
    ensures |Mask(t, lo, hi)| > 0 ==> |r| > 0
    ensures forall m, i :: 0 <= m < |axis.series| && 0 <= i < |t| && lo <= t[i] <= hi ==>
              series[axis.series[m]][i] in r
  {
    var idx := Mask(t, lo, hi);
    PoolMembers(series, axis.series, idx);
    assert forall m, i :: 0 <= m < |axis.series| && 0 <= i < |t| && lo <= t[i] <= hi ==>
             series[axis.series[m]][i] in Pool(series, axis.series, idx) by {
      forall m, i | 0 <= m < |axis.series| && 0 <= i < |t| && lo <= t[i] <= hi
        ensures series[axis.series[m]][i] in Pool(series, axis.series, idx)
      {
        var k :| 0 <= k < |idx| && idx[k] == i;
      }
    }
    Pool(series, axis.series, idx)
  }

  /** The y-limits of one axis after a frame whose window is [lo, hi]: with
      more than five samples in the window, the autoscaled range over the
      minimum and maximum of the axis's windowed samples, which contains each
      of them and is at least the minimum range wide; otherwise the previous
      limits. */
  function AxisLimits(t: seq<real>, series: seq<seq<real>>, axis: AxisSpec,
                      lo: real, hi: real, prev: (real, real)): (r: (real, real))
    requires (forall k :: 0 <= k < |series| ==> |series[k]| == |t|) && AxisFits(axis, |series|)
    ensures |Mask(t, lo, hi)| <= MinSamples ==> r == prev
    ensures |Mask(t, lo, hi)| > MinSamples ==>
              var pool := WindowPool(t, series, axis, lo, hi);
              r == AutoRange(SeqMin(pool), SeqMax(pool), axis.minRange, axis.padFraction)
    ensures |Mask(t, lo, hi)| > MinSamples ==>
              axis.minRange <= r.1 - r.0
              && forall m, i :: 0 <= m < |axis.series| && 0 <= i < |t| && lo <= t[i] <= hi ==>
                   r.0 <= series[axis.series[m]][i] <= r.1
  {
    if |Mask(t, lo, hi)| > MinSamples then
      var pool := WindowPool(t, series, axis, lo, hi);
      var r := AutoRange(SeqMin(pool), SeqMax(pool), axis.minRange, axis.padFraction);
      assert forall m, i :: 0 <= m < |axis.series| && 0 <= i < |t| && lo <= t[i] <= hi ==>
               r.0 <= series[axis.series[m]][i] <= r.1 by {
        forall m, i | 0 <= m < |axis.series| && 0 <= i < |t| && lo <= t[i] <= hi
          ensures r.0 <= series[axis.series[m]][i] <= r.1
        {
          assert series[axis.series[m]][i] in pool;
        }
      }
      r
    else prev
  }

  /** Every axis's limits after one frame. */
  function FrameYlims(t: seq<real>, series: seq<seq<real>>, axes: seq<AxisSpec>,
                      lo: real, hi: real, prev: seq<(real, real)>): (r: seq<(real, real)>)
    requires WellFormed(t, series, axes) && |prev| == |axes|
    ensures |r| == |axes|
    ensures forall a :: 0 <= a < |axes| ==> r[a] == AxisLimits(t, series, axes[a], lo, hi, prev[a])
  {
    seq(|axes|, a requires 0 <= a < |axes| => AxisLimits(t, series, axes[a], lo, hi, prev[a]))
  }

  /** The pool reads only the series the axis shows. */
  lemma {:induction false} PoolReadsOnlyShown(s1: seq<seq<real>>, s2: seq<seq<real>>, which: seq<nat>, idx: seq<nat>)
    requires forall m :: 0 <= m < |which| ==> which[m] < |s1| && which[m] < |s2|
    requires forall m :: 0 <= m < |which| ==> s1[which[m]] == s2[which[m]]
    requires forall m, k :: 0 <= m < |which| && 0 <= k < |idx| ==> idx[k] < |s1[which[m]]|
    ensures Pool(s1, which, idx) == Pool(s2, which, idx)
  {
    if which != [] {
      PoolReadsOnlyShown(s1, s2, which[1..], idx);
    }
  }

  /** An axis's limits depend only on the series it shows. */
  lemma AxisLimitsReadsOnlyShown(t: seq<real>, s1: seq<seq<real>>, s2: seq<seq<real>>, axis: AxisSpec,
                                 lo: real, hi: real, prev: (real, real))
    requires (forall k :: 0 <= k < |s1| ==> |s1[k]| == |t|) && AxisFits(axis, |s1|)
    requires (forall k :: 0 <= k < |s2| ==> |s2[k]| == |t|) && AxisFits(axis, |s2|)
    requires forall m :: 0 <= m < |axis.series| ==> s1[axis.series[m]] == s2[axis.series[m]]
    ensures AxisLimits(t, s1, axis, lo, hi, prev) == AxisLimits(t, s2, axis, lo, hi, prev)
  {
    PoolReadsOnlyShown(s1, s2, axis.series, Mask(t, lo, hi));
  }

  /** On the tracking-error HUD each axis is scaled from its own series only:
      changing the derivative leaves the error axis's limits as they are, and
      the other way round. */
  lemma TrackingAxesIndependent(t: seq<real>, e: seq<real>, de: seq<real>, e2: seq<real>, de2: seq<real>,
                                lo: real, hi: real, prev: (real, real))
    requires |e| == |de| == |e2| == |de2| == |t|
    ensures AxisLimits(t, [e, de], TrackingAxes[0], lo, hi, prev) == AxisLimits(t, [e, de2], TrackingAxes[0], lo, hi, prev)
    ensures AxisLimits(t, [e, de], TrackingAxes[1], lo, hi, prev) == AxisLimits(t, [e2, de], TrackingAxes[1], lo, hi, prev)
  {
    AxisLimitsReadsOnlyShown(t, [e, de], [e, de2], TrackingAxes[0], lo, hi, prev);
    AxisLimitsReadsOnlyShown(t, [e, de], [e2, de], TrackingAxes[1], lo, hi, prev);
  }

  /** The pool of two series is the first's windowed samples then the
      second's. */
  lemma PoolTwo(series: seq<seq<real>>, i: nat, j: nat, idx: seq<nat>)
    requires i < |series| && j < |series|
    requires forall k :: 0 <= k < |idx| ==> idx[k] < |series[i]| && idx[k] < |series[j]|
    ensures Pool(series, [i, j], idx) == Select(series[i], idx) + Select(series[j], idx)
  {
    assert [i, j][1..] == [j] && [j][1..] == [];
    assert Pool(series, [j], idx) == Select(series[j], idx) + [];
  }

  /** On the altitude HUD the shared range is computed from the smaller of the
      two windowed minima and the larger of the two windowed maxima. */
  lemma FlightSharedExtremes(ref: seq<real>, alt: seq<real>, idx: seq<nat>)
    requires |ref| == |alt| && |idx| > 0
    requires forall k :: 0 <= k < |idx| ==> idx[k] < |ref|
    ensures var pool := Pool([ref, alt], [0, 1], idx);
            SeqMin(pool) == RealMin(SeqMin(Select(ref, idx)), SeqMin(Select(alt, idx)))
            && SeqMax(pool) == RealMax(SeqMax(Select(ref, idx)), SeqMax(Select(alt, idx)))
  {
    PoolTwo([ref, alt], 0, 1, idx);
    SeqMinConcat(Select(ref, idx), Select(alt, idx));
    SeqMaxConcat(Select(ref, idx), Select(alt, idx));
  }

  /** A renderer's state: what `update` leaves on the figure. */
  class Player {
    const t: seq<real>
    const series: seq<seq<real>>
    const axes: seq<AxisSpec>
    const windowS: real
    const t0: real
    const tEnd: real
    const wall0: real
    const scale: real

    /** The visible x-range. */
    var xlim: (real, real)
    /** The position of the red "now" line. */
    var marker: real
    /** The lines show the first `drawn` samples of each series. */
    var drawn: nat
    /** The visible y-range of each axis; kept across frames with too few
        samples. */
    var ylims: seq<(real, real)>
    /** The virtual time shown in the readout. */
    var readout: real
    /** Whether the animation's event source has been stopped. */
    var stopped: bool

    ghost predicate Valid()
      reads this
    {
      && |t| > 0 && Sorted(t) && t0 == t[0] && tEnd == t[|t| - 1]
      && WellFormed(t, series, axes)
      && |ylims| == |axes| && drawn <= |t|
    }

    /** run_clock_only in tracking_error_rolling.py: the error on one axis, its
        derivative on a twin axis, each with a 10-unit minimum range and 15%
        padding. */
    constructor Tracking(t: seq<real>, e: seq<real>, de: seq<real>, windowS: real, scale: real, wall0: real,
                         initialY: (real, real))
      requires |t| > 0 && Sorted(t) && |e| == |t| && |de| == |t|
      ensures Valid()
      ensures this.t == t && series == [e, de] && axes == TrackingAxes
      ensures this.windowS == windowS && this.scale == scale && this.wall0 == wall0
      ensures xlim == (t[0] - windowS / 2.0, t[0] + windowS / 2.0) && marker == t[0]
      ensures drawn == 0 && ylims == [initialY, initialY] && !stopped
    {
      this.t := t;
      series := [e, de];
      axes := TrackingAxes;
      this.windowS := windowS;
      t0 := t[0];
      tEnd := t[|t| - 1];
      this.wall0 := wall0;
      this.scale := scale;
      xlim := (t[0] - windowS / 2.0, t[0] + windowS / 2.0);
      marker := t[0];
      drawn := 0;
      ylims := [initialY, initialY];
      readout := t[0];
      stopped := false;
    }

    /** run_clock_only in flight_rolling.py: the reference and the altitude on
        one shared axis with a 50-unit minimum range and 20% padding. */
    constructor Flight(t: seq<real>, ref: seq<real>, alt: seq<real>, windowS: real, scale: real, wall0: real,
                       initialY: (real, real))
      requires |t| > 0 && Sorted(t) && |ref| == |t| && |alt| == |t|
      ensures Valid()
      ensures this.t == t && series == [ref, alt] && axes == FlightAxes
      ensures this.windowS == windowS && this.scale == scale && this.wall0 == wall0
      ensures xlim == (t[0] - windowS / 2.0, t[0] + windowS / 2.0) && marker == t[0]
      ensures drawn == 0 && ylims == [initialY] && !stopped
    {
      this.t := t;
      series := [ref, alt];
      axes := FlightAxes;
      this.windowS := windowS;
      t0 := t[0];
      tEnd := t[|t| - 1];
      this.wall0 := wall0;
      this.scale := scale;
      xlim := (t[0] - windowS / 2.0, t[0] + windowS / 2.0);
      marker := t[0];
      drawn := 0;
      ylims := [initialY];
      readout := t[0];
      stopped := false;
    }

    /** `update`: one frame at wall-clock time `wall`. */
    method Update(wall: real)
      requires Valid()
      modifies this
      ensures Valid()
      ensures var vt := VirtualClock.Now(t0, wall0, scale, wall);
              && xlim == (vt - windowS / 2.0, vt + windowS / 2.0)
              && marker == vt && readout == vt
              && (forall j :: 0 <= j < drawn ==> t[j] < vt)
              && (forall j :: drawn <= j < |t| ==> vt <= t[j])
              && ylims == FrameYlims(t, series, axes, vt - windowS / 2.0, vt + windowS / 2.0, old(ylims))
              && stopped == (old(stopped) || tEnd <= vt)
    {
      var vt := VirtualClock.Now(t0, wall0, scale, wall);
      var idx := SearchSorted(t, vt);
      xlim := (vt - windowS / 2.0, vt + windowS / 2.0);
      marker := vt;
      drawn := idx;
      ylims := FrameYlims(t, series, axes, vt - windowS / 2.0, vt + windowS / 2.0, ylims);
      readout := vt;
      if tEnd <= vt {
        stopped := true;
      }
    }

    /** The animation timer: it calls `update` until the event source is
        stopped, and never again after. */
    method Tick(wall: real)
      requires Valid()
      modifies this
      ensures Valid()
      ensures old(stopped) ==> unchanged(this)
      ensures !old(stopped) ==>
                var vt := VirtualClock.Now(t0, wall0, scale, wall);
                && xlim == (vt - windowS / 2.0, vt + windowS / 2.0)
                && marker == vt && readout == vt
                && (forall j :: 0 <= j < drawn ==> t[j] < vt)
                && (forall j :: drawn <= j < |t| ==> vt <= t[j])
                && ylims == FrameYlims(t, series, axes, vt - windowS / 2.0, vt + windowS / 2.0, old(ylims))
                && stopped == (tEnd <= vt)
    {
      if !stopped {
        Update(wall);
      }
    }
  }
}
