/** The incremental release loop of `update_input_data` (update_input.py):
    at every grid tick `start_time + k * interval` of virtual time the first
    k + 1 kept rows are written as one snapshot, overwriting the previous one,
    and handed to the uploader. */
module ReleaseScheduler {
  import opened Common
  import opened Dataset
  import VirtualClock

  /** The two matrices of the snapshot file: `e` pairs each row's tracking
      error with its derivative, `de` the derivative with the second
      derivative. */
  datatype Snapshot = Snapshot(e: seq<(real, real)>, de: seq<(real, real)>)

  /** What a reader of the file sees: the number of rows of `e`. */
  function RowCount(snap: Snapshot): nat {
    |snap.e|
  }

  /** The snapshot of the first `n` kept rows. */
  function SnapshotOf(s: seq<Sample>, n: nat): (r: Snapshot)
    requires n <= |s|
    ensures RowCount(r) == n && |r.de| == n
    ensures forall j :: 0 <= j < n ==> r.e[j] == (s[j].te, s[j].dte) && r.de[j] == (s[j].dte, s[j].ddte)
  {
    Snapshot(seq(n, j requires 0 <= j < n => (s[j].te, s[j].dte)),
             seq(n, j requires 0 <= j < n => (s[j].dte, s[j].ddte)))
  }

  /** One more row appended to both matrices. */
  function Extend(snap: Snapshot, x: Sample): Snapshot {
    Snapshot(snap.e + [(x.te, x.dte)], snap.de + [(x.dte, x.ddte)])
  }

  predicate IsPrefixOf(a: Snapshot, b: Snapshot) {
    a.e <= b.e && a.de <= b.de
  }

  /** Each release extends the previous snapshot by exactly the next kept row. */
  lemma SnapshotGrows(s: seq<Sample>, n: nat)
    requires n < |s|
    ensures SnapshotOf(s, n + 1) == Extend(SnapshotOf(s, n), s[n])
    ensures RowCount(SnapshotOf(s, n + 1)) == RowCount(SnapshotOf(s, n)) + 1
  {
    var a, b := SnapshotOf(s, n), SnapshotOf(s, n + 1);
    assert b.e == a.e + [(s[n].te, s[n].dte)];
    assert b.de == a.de + [(s[n].dte, s[n].ddte)];
  }

  /** Earlier snapshots are strict prefixes of later ones. */
  lemma SnapshotPrefix(s: seq<Sample>, m: nat, n: nat)
    requires m < n <= |s|
    ensures IsPrefixOf(SnapshotOf(s, m), SnapshotOf(s, n))
    ensures RowCount(SnapshotOf(s, m)) < RowCount(SnapshotOf(s, n))
  {
    var a, b := SnapshotOf(s, m), SnapshotOf(s, n);
    assert a.e == b.e[..m];
    assert a.de == b.de[..m];
  }

  /** The virtual time of release `k`: `start_time + k * interval`. */
  function TickTime(start: real, interval: real, k: nat): real {
    start + k as real * interval
  }

  /** How many ticks have been reached at virtual time `vt`: the count r
      such that ticks 0 .. r - 1 are at most `vt + Eps` and tick r is beyond. */
  function DueCount(start: real, interval: real, vt: real): (r: nat)
    requires interval > 0.0
    ensures r > 0 ==> TickTime(start, interval, r - 1) <= vt + Eps
    ensures vt + Eps < TickTime(start, interval, r)
  {
    if vt + Eps < start then
      assert TickTime(start, interval, 0) == start;
      0
    else
      var x := (vt + Eps - start) / interval;
      assert x * interval == vt + Eps - start;
      assert 0.0 <= x by {
        if x < 0.0 {
          ScaleStrict(x, 0.0, interval);
        }
      }
      var f := x.Floor;
      assert f as real <= x < f as real + 1.0;
      ScaleMonotone(f as real, x, interval);
      var r: nat := f + 1;
      assert x < r as real;
      ScaleStrict(x, r as real, interval);
      assert vt + Eps - start < r as real * interval;
      assert TickTime(start, interval, r) == start + r as real * interval;
      r
  }

  /** Multiplying by a positive interval keeps the order of two reals. */
  lemma ScaleMonotone(a: real, b: real, c: real)
    requires a <= b && 0.0 < c
    ensures a * c <= b * c
  {
    assert b * c - a * c == (b - a) * c;
  }

  lemma ScaleStrict(a: real, b: real, c: real)
    requires a < b && 0.0 < c
    ensures a * c < b * c
  {
    assert b * c - a * c == (b - a) * c;
  }

  /** Tick `k` is reached exactly when `k` is below the due count. */
  lemma {:induction false} DueCountSpec(start: real, interval: real, vt: real, k: nat)
    requires interval > 0.0
    ensures TickTime(start, interval, k) <= vt + Eps <==> k < DueCount(start, interval, vt)
  {
    var r := DueCount(start, interval, vt);
    if k < r {
      TickMonotone(start, interval, k, r - 1);
    } else {
      TickMonotone(start, interval, r, k);
    }
  }

  /** Later ticks are at later virtual times. */
  lemma TickMonotone(start: real, interval: real, j: nat, k: nat)
    requires j <= k && interval > 0.0
    ensures TickTime(start, interval, j) <= TickTime(start, interval, k)
  {
    ScaleMonotone(j as real, k as real, interval);
  }

  /** Later virtual times have reached at least as many ticks. */
  lemma {:induction false} DueCountMonotone(start: real, interval: real, vt1: real, vt2: real)
    requires interval > 0.0 && vt1 <= vt2
    ensures DueCount(start, interval, vt1) <= DueCount(start, interval, vt2)
  {
    if start <= vt1 + Eps {
      var x1, x2 := (vt1 + Eps - start) / interval, (vt2 + Eps - start) / interval;
      assert x1 * interval <= x2 * interval;
      assert x1 <= x2;
    }
  }

  /** Once virtual time passes the last kept row's tick, every row is due. */
  lemma AllDueAfterLastTick(start: real, interval: real, n: nat, vt: real)
    requires interval > 0.0 && n > 0
    requires TickTime(start, interval, n - 1) <= vt + Eps
    ensures Min(n, DueCount(start, interval, vt)) == n
  {
    DueCountSpec(start, interval, vt, n - 1);
  }

  /** With start 0 and interval 2, virtual time 8 has reached five ticks
      (0, 2, 4, 6, 8) and virtual time 7.9 four. */
  lemma FiveTicksByEight()
    ensures DueCount(0.0, 2.0, 8.0) == 5
    ensures DueCount(0.0, 2.0, 7.9) == 4
  {
    assert (8.0 + Eps - 0.0) / 2.0 == 4.0000005;
    assert (7.9 + Eps - 0.0) / 2.0 == 3.9500005;
  }

  /** The snapshots released for indices `from` up to `to`, in order. */
  function Releases(s: seq<Sample>, from: nat, to: nat): (r: seq<Snapshot>)
    requires from <= to <= |s|
    ensures |r| == to - from
    ensures forall i :: 0 <= i < to - from ==> r[i] == SnapshotOf(s, from + i + 1)
  {
    seq(to - from, i requires 0 <= i < to - from => SnapshotOf(s, from + i + 1))
  }

  /** One release appends the next snapshot to the log. */
  lemma ReleasesAppendOne(s: seq<Sample>, n: nat)
    requires n < |s|
    ensures Releases(s, 0, n + 1) == Releases(s, 0, n) + [SnapshotOf(s, n + 1)]
  {
    ReleasesSplit(s, 0, n, n + 1);
    assert Releases(s, n, n + 1) == [SnapshotOf(s, n + 1)];
  }

  lemma ReleasesSplit(s: seq<Sample>, a: nat, b: nat, c: nat)
    requires a <= b <= c <= |s|
    ensures Releases(s, a, c) == Releases(s, a, b) + Releases(s, b, c)
  {
  }

  /** The outcome of one iteration of the outer loop. */
  datatype StepOutcome = Finished | Slept | Continued

  class Scheduler {
    const samples: seq<Sample>
    const startTime: real
    const interval: real
    const wall0: real
    const scale: real

    var nextIdx: nat
    var nextTick: real
    /** The snapshot file's content; None before the first release. */
    var file: Option<Snapshot>
    /** Every snapshot handed to the uploader, in order. Whether an upload
        succeeds never changes the scheduler's state. */
    var uploads: seq<Snapshot>

    ghost predicate Valid()
      reads this
    {
      && interval > 0.0
      && nextIdx <= |samples|
      && nextTick == TickTime(startTime, interval, nextIdx)
      && uploads == Releases(samples, 0, nextIdx)
      && file == (if nextIdx == 0 then None else Some(SnapshotOf(samples, nextIdx)))
    }

    constructor (samples: seq<Sample>, startTime: real, interval: real, scale: real, wall0: real)
      requires interval > 0.0
      ensures Valid()
      ensures this.samples == samples && this.startTime == startTime && this.interval == interval
      ensures this.scale == scale && this.wall0 == wall0
      ensures nextIdx == 0 && nextTick == startTime && file == None && uploads == []
    {
      this.samples := samples;
      this.startTime := startTime;
      this.interval := interval;
      this.scale := scale;
      this.wall0 := wall0;
      nextIdx := 0;
      nextTick := startTime;
      file := None;
      uploads := [];
    }

    /** The abstract uploader: it is handed the file's current content. */
    method Upload()
      requires file.Some?
      modifies this`uploads
      ensures uploads == old(uploads) + [file.value]
    {
      uploads := uploads + [file.value];
    }

    /** One iteration of the inner loop: write the snapshot of the first
        `nextIdx + 1` rows, upload it, and move on to the next row and tick. */
    method Release()
      requires Valid() && nextIdx < |samples|
      modifies this
      ensures Valid()
      ensures nextIdx == old(nextIdx) + 1
      ensures file == Some(SnapshotOf(samples, nextIdx))
      ensures uploads == old(uploads) + [SnapshotOf(samples, nextIdx)]
    {
      ReleasesAppendOne(samples, nextIdx);
      file := Some(SnapshotOf(samples, nextIdx + 1));
      Upload();
      nextIdx := nextIdx + 1;
      nextTick := startTime + nextIdx as real * interval;
    }

    /** The inner loop at virtual time `vt`: release every due index in turn,
        writing the cumulative snapshot and uploading it each time. */
    method Pass(vt: real) returns (updatedAny: bool)
      requires Valid()
      modifies this
      ensures Valid()
      ensures nextIdx == Max(old(nextIdx), Min(|samples|, DueCount(startTime, interval, vt)))
      ensures updatedAny <==> nextIdx > old(nextIdx)
      ensures uploads == old(uploads) + Releases(samples, old(nextIdx), nextIdx)
    {
      updatedAny := false;
      ghost var due := DueCount(startTime, interval, vt);
      while nextIdx < |samples| && vt + Eps >= nextTick
        invariant Valid()
        invariant old(nextIdx) <= nextIdx
        invariant updatedAny <==> nextIdx > old(nextIdx)
        invariant nextIdx > old(nextIdx) ==> nextIdx <= due
        decreases |samples| - nextIdx
      {
        DueCountSpec(startTime, interval, vt, nextIdx);
        Release();
        updatedAny := true;
      }
      DueCountSpec(startTime, interval, vt, nextIdx);
      ReleasesSplit(samples, 0, old(nextIdx), nextIdx);
    }

    /** One iteration of the outer `while True`: read the clock, run the inner
        loop, stop when every kept row is released, and sleep only after a
        pass that released nothing. */
    method Step(wall: real) returns (outcome: StepOutcome)
      requires Valid()
      modifies this
      ensures Valid()
      ensures nextIdx == Max(old(nextIdx), Min(|samples|, DueCount(startTime, interval, VirtualClock.Now(startTime, wall0, scale, wall))))
      ensures outcome == Finished <==> nextIdx == |samples|
      ensures outcome == Slept <==> nextIdx < |samples| && nextIdx == old(nextIdx)
    {
      var vt := VirtualClock.Now(startTime, wall0, scale, wall);
      var updatedAny := Pass(vt);
      if nextIdx >= |samples| {
        outcome := Finished;
      } else if !updatedAny {
        outcome := Slept;
      } else {
        outcome := Continued;
      }
    }

    /** The outer loop fed with successive wall-clock readings: it runs until
        every kept row is released or the readings run out. */
    method Run(walls: seq<real>) returns (finished: bool, steps: nat)
      requires Valid()
      requires 0.0 <= scale
      requires forall i, j :: 0 <= i < j < |walls| ==> walls[i] <= walls[j]
      modifies this
      ensures Valid()
      ensures old(nextIdx) <= nextIdx
      ensures finished ==> nextIdx == |samples|
      ensures steps > 0 && !finished ==> nextIdx < |samples|
      ensures steps <= |walls| && (!finished ==> steps == |walls|)
      ensures steps > 0 ==> nextIdx == Max(old(nextIdx), Min(|samples|,
                DueCount(startTime, interval, VirtualClock.Now(startTime, wall0, scale, walls[steps - 1]))))
      ensures uploads == old(uploads) + Releases(samples, old(nextIdx), nextIdx)
    {
      finished, steps := false, 0;
      while steps < |walls| && !finished
        invariant Valid()
        invariant steps <= |walls|
        invariant old(nextIdx) <= nextIdx
        invariant steps == 0 ==> nextIdx == old(nextIdx)
        invariant finished ==> nextIdx == |samples|
        invariant steps > 0 && !finished ==> nextIdx < |samples|
        invariant steps > 0 ==> nextIdx == Max(old(nextIdx), Min(|samples|,
                    DueCount(startTime, interval, VirtualClock.Now(startTime, wall0, scale, walls[steps - 1]))))
        invariant uploads == old(uploads) + Releases(samples, old(nextIdx), nextIdx)
      {
        ghost var before := nextIdx;
        if steps > 0 {
          VirtualClock.NowMonotone(startTime, wall0, scale, walls[steps - 1], walls[steps]);
          DueCountMonotone(startTime, interval,
            VirtualClock.Now(startTime, wall0, scale, walls[steps - 1]),
            VirtualClock.Now(startTime, wall0, scale, walls[steps]));
        }
        var outcome := Step(walls[steps]);
        ghost var due := Min(|samples|, DueCount(startTime, interval, VirtualClock.Now(startTime, wall0, scale, walls[steps])));
        assert nextIdx == Max(before, due);
        assert nextIdx == Max(old(nextIdx), due);
        ReleasesSplit(samples, old(nextIdx), before, nextIdx);
        finished := outcome == Finished;
        steps := steps + 1;
      }
    }
  }
}
