/** Loading and down-sampling of the tracking dataset (`load_and_prepare` in
    update_input.py): four logical fields are resolved against the header, and
    only the rows whose offset from the first timestamp lies on the release
    grid of step `interval` are kept. */
module Dataset {
  import opened Common
  import opened Text
  import opened ColumnResolution

  /** One row of the dataset once its columns are resolved. */
  datatype Sample = Sample(time: real, te: real, dte: real, ddte: real)

  /** The CSV as read: a header and rows of numbers, one per header cell. */
  datatype Table = Table(header: seq<string>, rows: seq<seq<real>>)

  predicate Rectangular(table: Table) {
    forall i :: 0 <= i < |table.rows| ==> |table.rows[i]| == |table.header|
  }

  predicate SortedByTime(s: seq<Sample>) {
    forall i, j :: 0 <= i < j < |s| ==> s[i].time <= s[j].time
  }

  /** The grid test's two tolerances: `eps` is added before flooring the grid
      index, and `np.isclose` accepts |a - b| <= atol + rtol * |b|. */
  datatype Tolerance = Tolerance(eps: real, atol: real, rtol: real)

  /** `EPS`: the slack added before flooring the grid index, and the slack
      with which the release loop counts a tick as reached. */
  const Eps: real := 0.000001

  /** `EPS` and `np.isclose(..., atol=1e-6)`, whose relative tolerance keeps
      NumPy's default 1e-5: the test as written. */
  const AsWrittenTolerance := Tolerance(Eps, 0.000001, 0.00001)

  /** The same test with the relative tolerance removed: an absolute 1e-6. */
  const IntendedTolerance := Tolerance(Eps, 0.000001, 0.0)

  /** Exact arithmetic: no slack at all. */
  const ExactTolerance := Tolerance(0.0, 0.0, 0.0)

  predicate ValidTolerance(tol: Tolerance) {
    0.0 <= tol.eps < 1.0 && 0.0 <= tol.atol && 0.0 <= tol.rtol
  }

  function Abs(x: real): real {
    if x < 0.0 then -x else x
  }

  /** `k = floor(rel / interval + EPS)`: the largest integer not above the
      offset in intervals plus `eps`. */
  function GridIndex(start: real, interval: real, tol: Tolerance, t: real): (k: int)
    requires interval > 0.0
    ensures k as real <= (t - start) / interval + tol.eps < k as real + 1.0
  {
    ((t - start) / interval + tol.eps).Floor
  }

  /** `np.isclose(rel, k * interval)`. */
  predicate Kept(start: real, interval: real, tol: Tolerance, t: real)
    requires interval > 0.0
  {
    var k := GridIndex(start, interval, tol, t);
    Abs((t - start) - k as real * interval) <= tol.atol + tol.rtol * Abs(k as real * interval)
  }

  /** `df.loc[keep]`: the rows that pass the grid test, in their order. */
  function Downsample(s: seq<Sample>, start: real, interval: real, tol: Tolerance): (r: seq<Sample>)
    requires interval > 0.0
    ensures |r| <= |s|
  {
    if s == [] then []
    else if Kept(start, interval, tol, s[0].time) then [s[0]] + Downsample(s[1..], start, interval, tol)
    else Downsample(s[1..], start, interval, tol)
  }

  /** Exactly the rows of the dataset that pass the grid test survive. */
  lemma {:induction false} DownsampleMembers(s: seq<Sample>, start: real, interval: real, tol: Tolerance)
    requires interval > 0.0
    ensures forall x :: x in Downsample(s, start, interval, tol) <==> x in s && Kept(start, interval, tol, x.time)
  {
    if s != [] {
      DownsampleMembers(s[1..], start, interval, tol);
      assert forall x :: x in s <==> x == s[0] || x in s[1..];
    }
  }

  /** Down-sampling is a filter: it commutes with concatenation, so the kept
      rows appear in the order they had in the dataset. */
  lemma {:induction false} DownsampleAppend(a: seq<Sample>, b: seq<Sample>, start: real, interval: real, tol: Tolerance)
    requires interval > 0.0
    ensures Downsample(a + b, start, interval, tol) == Downsample(a, start, interval, tol) + Downsample(b, start, interval, tol)
  {
    if a != [] {
      assert (a + b)[1..] == a[1..] + b;
      DownsampleAppend(a[1..], b, start, interval, tol);
    } else {
      assert a + b == b;
    }
  }

  /** A dataset with non-decreasing timestamps stays so after down-sampling. */
  lemma {:induction false} DownsampleSorted(s: seq<Sample>, start: real, interval: real, tol: Tolerance)
    requires interval > 0.0
    requires SortedByTime(s)
    ensures SortedByTime(Downsample(s, start, interval, tol))
  {
    if s != [] {
      var rest := Downsample(s[1..], start, interval, tol);
      DownsampleMembers(s[1..], start, interval, tol);
      assert SortedByTime(s[1..]);
      DownsampleSorted(s[1..], start, interval, tol);
      if Kept(start, interval, tol, s[0].time) {
        forall x | x in rest ensures s[0].time <= x.time {
          var j :| 0 <= j < |s[1..]| && s[1..][j] == x;
          assert s[j + 1] == x;
        }
        var r := [s[0]] + rest;
        forall i, j | 0 <= i < j < |r| ensures r[i].time <= r[j].time {
          if i == 0 {
            assert r[j] in rest;
          } else {
            assert r[i] == rest[i - 1] && r[j] == rest[j - 1];
          }
        }
      }
    }
  }

  /** The first row has offset 0 and is always kept. */
  lemma FirstRowKept(start: real, interval: real, tol: Tolerance)
    requires interval > 0.0 && ValidTolerance(tol)
    ensures GridIndex(start, interval, tol, start) == 0
    ensures Kept(start, interval, tol, start)
  {
    OnGridKept(start, interval, tol, start, 0);
  }

  lemma DownsampleKeepsFirst(s: seq<Sample>, interval: real, tol: Tolerance)
    requires interval > 0.0 && ValidTolerance(tol) && s != []
    ensures var r := Downsample(s, s[0].time, interval, tol); r != [] && r[0] == s[0]
  {
    FirstRowKept(s[0].time, interval, tol);
  }

  /** `t` lies exactly `k` intervals after `start`. */
  predicate OnGrid(start: real, interval: real, t: real, k: int) {
    t - start == k as real * interval
  }

  lemma {:induction false} GridQuotient(start: real, interval: real, t: real, k: int)
    requires interval > 0.0 && OnGrid(start, interval, t, k)
    ensures (t - start) / interval == k as real
  {
    assert (k as real * interval) / interval == k as real;
  }

  /** A time exactly `k` intervals after the start has grid index `k` and is
      kept, whatever the (valid) tolerances. */
  lemma {:induction false} OnGridKept(start: real, interval: real, tol: Tolerance, t: real, k: int)
    requires interval > 0.0 && ValidTolerance(tol) && OnGrid(start, interval, t, k)
    ensures GridIndex(start, interval, tol, t) == k
    ensures Kept(start, interval, tol, t)
  {
    GridQuotient(start, interval, t, k);
    var g := k as real * interval;
    assert 0.0 <= tol.rtol && 0.0 <= Abs(g) ==> 0.0 <= tol.rtol * Abs(g);
  }

  /** With exact arithmetic a row is kept iff its offset is an integer multiple
      of the interval. */
  lemma {:induction false} ExactKeptIffOnGrid(start: real, interval: real, t: real)
    requires interval > 0.0
    ensures Kept(start, interval, ExactTolerance, t) <==> exists k: int :: OnGrid(start, interval, t, k)
  {
    var k := GridIndex(start, interval, ExactTolerance, t);
    if Kept(start, interval, ExactTolerance, t) {
      assert OnGrid(start, interval, t, k);
    }
    if exists k': int :: OnGrid(start, interval, t, k') {
      var k' :| OnGrid(start, interval, t, k');
      GridQuotient(start, interval, t, k');
      assert k == k';
    }
  }

  /** With the absolute tolerance only, two rows kept for the same grid tick
      lie within twice that tolerance of each other: rows spaced further apart
      than 2e-6 are released on different ticks, one row per tick. */
  lemma {:induction false} IntendedTickWidth(start: real, interval: real, t1: real, t2: real)
    requires interval > 0.0
    requires Kept(start, interval, IntendedTolerance, t1) && Kept(start, interval, IntendedTolerance, t2)
    requires GridIndex(start, interval, IntendedTolerance, t1) == GridIndex(start, interval, IntendedTolerance, t2)
    ensures Abs(t2 - t1) <= 2.0 * IntendedTolerance.atol
  {
    var g := GridIndex(start, interval, IntendedTolerance, t1) as real * interval;
    assert IntendedTolerance.rtol * Abs(g) == 0.0;
    assert Abs((t1 - start) - g) <= IntendedTolerance.atol;
    assert Abs((t2 - start) - g) <= IntendedTolerance.atol;
  }

  /** As written, the relative tolerance widens the acceptance window with the
      offset: at offset 3000 with an interval of 30 both 3000.0 and 3000.02 are
      kept for the same grid tick, so one tick keeps several rows. */
  lemma AsWrittenKeepsOffGridRow()
    ensures Kept(0.0, 30.0, AsWrittenTolerance, 3000.0)
    ensures Kept(0.0, 30.0, AsWrittenTolerance, 3000.02)
    ensures GridIndex(0.0, 30.0, AsWrittenTolerance, 3000.0) == GridIndex(0.0, 30.0, AsWrittenTolerance, 3000.02) == 100
    ensures !Kept(0.0, 30.0, IntendedTolerance, 3000.02)
  {
    assert 3000.0 / 30.0 + 0.000001 == 100.000001;
    assert 100.0 <= 3000.02 / 30.0 + 0.000001 < 101.0;
  }

  /** The aliases `load_and_prepare` resolves, field by field. */
  const TeAliases: seq<string> := ["Tracking Error"]
  const DteAliases: seq<string> := ["Tracking Error Derivative"]
  const DdteAliases: seq<string> := ["Tracking Error Second Derivative"]

  /** The alias lists tried for each of the four columns. */
  datatype Aliases = Aliases(time: seq<string>, te: seq<string>, dte: seq<string>, ddte: seq<string>)

  const SourceAliases := Aliases(TimeAliases, TeAliases, DteAliases, DdteAliases)

  datatype Schema = Schema(time: Column, te: Column, dte: Column, ddte: Column)

  datatype LoadError = MissingColumn(missing: ColumnNotFound) | NoRows

  datatype Prepared = Prepared(schema: Schema, samples: seq<Sample>, startTime: real)

  predicate SchemaFits(schema: Schema, width: nat) {
    schema.time.index < width && schema.te.index < width
    && schema.dte.index < width && schema.ddte.index < width
  }

  function SampleOf(row: seq<real>, schema: Schema): Sample
    requires SchemaFits(schema, |row|)
  {
    Sample(row[schema.time.index], row[schema.te.index], row[schema.dte.index], row[schema.ddte.index])
  }

  function SamplesOf(table: Table, schema: Schema): (r: seq<Sample>)
    requires Rectangular(table) && SchemaFits(schema, |table.header|)
    ensures |r| == |table.rows|
    ensures forall i :: 0 <= i < |r| ==> r[i] == SampleOf(table.rows[i], schema)
  {
    seq(|table.rows|, i requires 0 <= i < |table.rows| => SampleOf(table.rows[i], schema))
  }

  /** The body of `load_and_prepare` for given alias lists and grid
      tolerances: strip the header, resolve the time column and the three
      tracking-error columns in that order (the first failure is reported),
      read the first timestamp (a table without rows fails there) and keep the
      rows on the release grid. */
  function Load(table: Table, interval: real, names: Aliases, tol: Tolerance): (r: Result<Prepared, LoadError>)
    requires Rectangular(table) && interval > 0.0 && ValidTolerance(tol)
    ensures var schema := ResolveSchema(StripAll(table.header), names);
            r.Ok? <==> table.rows != [] && schema.Ok?
    ensures var schema := ResolveSchema(StripAll(table.header), names);
            schema.Err? ==> r == Err(MissingColumn(schema.error))
    ensures var schema := ResolveSchema(StripAll(table.header), names);
            schema.Ok? && table.rows == [] ==> r == Err(NoRows)
    ensures r.Ok? ==> r.value.schema == ResolveSchema(StripAll(table.header), names).value
    ensures r.Ok? ==> table.rows != [] && |table.rows[0]| == |table.header|
                      && SchemaFits(r.value.schema, |table.header|)
                      && r.value.startTime == table.rows[0][r.value.schema.time.index]
                      && r.value.samples == Downsample(SamplesOf(table, r.value.schema), r.value.startTime, interval, tol)
    ensures r.Ok? ==> r.value.samples != [] && r.value.samples[0].time == r.value.startTime
    ensures r.Ok? ==> forall x :: x in r.value.samples <==>
                        x in SamplesOf(table, r.value.schema) && Kept(r.value.startTime, interval, tol, x.time)
  {
    var schema := ResolveSchema(StripAll(table.header), names);
    if schema.Err? then Err(MissingColumn(schema.error))
    else if table.rows == [] then Err(NoRows)
    else Ok(PrepareRows(table, schema.value, interval, tol))
  }

  /** `Load` in terms of the four lookups themselves: a missing column is
      reported before missing rows, the first missing one in the order time,
      te, dte, ddte; with all four found and no rows the error is `NoRows`;
      on success the schema holds the four columns found. */
  lemma LoadColumnOutcomes(table: Table, interval: real, names: Aliases, tol: Tolerance)
    requires Rectangular(table) && interval > 0.0 && ValidTolerance(tol)
    ensures var header := StripAll(table.header);
            var time, te := FindColumn(header, names.time), FindColumn(header, names.te);
            var dte, ddte := FindColumn(header, names.dte), FindColumn(header, names.ddte);
            var r := Load(table, interval, names, tol);
            && (r.Ok? <==> table.rows != [] && time.Ok? && te.Ok? && dte.Ok? && ddte.Ok?)
            && (time.Err? ==> r == Err(MissingColumn(time.error)))
            && (time.Ok? && te.Err? ==> r == Err(MissingColumn(te.error)))
            && (time.Ok? && te.Ok? && dte.Err? ==> r == Err(MissingColumn(dte.error)))
            && (time.Ok? && te.Ok? && dte.Ok? && ddte.Err? ==> r == Err(MissingColumn(ddte.error)))
            && (table.rows == [] && time.Ok? && te.Ok? && dte.Ok? && ddte.Ok? ==> r == Err(NoRows))
            && (r.Ok? ==> r.value.schema == Schema(time.value, te.value, dte.value, ddte.value))
  {
  }

  /** The four column lookups, in the order time, te, dte, ddte: the first
      one that fails is reported, and otherwise the four columns found form
      the schema, each an index into the header. */
  function ResolveSchema(header: seq<string>, names: Aliases): (r: Result<Schema, ColumnNotFound>)
    ensures r.Ok? <==> FindColumn(header, names.time).Ok? && FindColumn(header, names.te).Ok?
                       && FindColumn(header, names.dte).Ok? && FindColumn(header, names.ddte).Ok?
    ensures r.Ok? ==> r.value == Schema(FindColumn(header, names.time).value, FindColumn(header, names.te).value,
                                        FindColumn(header, names.dte).value, FindColumn(header, names.ddte).value)
    ensures r.Ok? ==> SchemaFits(r.value, |header|)
    ensures var time := FindColumn(header, names.time);
            time.Err? ==> r == Err(time.error)
    ensures var time, te := FindColumn(header, names.time), FindColumn(header, names.te);
            time.Ok? && te.Err? ==> r == Err(te.error)
    ensures var time, te, dte := FindColumn(header, names.time), FindColumn(header, names.te), FindColumn(header, names.dte);
            time.Ok? && te.Ok? && dte.Err? ==> r == Err(dte.error)
    ensures var time, te := FindColumn(header, names.time), FindColumn(header, names.te);
            var dte, ddte := FindColumn(header, names.dte), FindColumn(header, names.ddte);
            time.Ok? && te.Ok? && dte.Ok? && ddte.Err? ==> r == Err(ddte.error)
  {
    var time := FindColumn(header, names.time);
    var te := FindColumn(header, names.te);
    var dte := FindColumn(header, names.dte);
    var ddte := FindColumn(header, names.ddte);
    if time.Err? then Err(time.error)
    else if te.Err? then Err(te.error)
    else if dte.Err? then Err(dte.error)
    else if ddte.Err? then Err(ddte.error)
    else Ok(Schema(time.value, te.value, dte.value, ddte.value))
  }

  /** `load_and_prepare` as written: the source's alias lists and NumPy's
      default relative tolerance in the grid test. */
  function LoadAndPrepare(table: Table, interval: real): (r: Result<Prepared, LoadError>)
    requires Rectangular(table) && interval > 0.0
    ensures r.Ok? ==> SchemaFits(r.value.schema, |table.header|)
                      && forall x :: x in r.value.samples <==>
                           x in SamplesOf(table, r.value.schema) && Kept(r.value.startTime, interval, AsWrittenTolerance, x.time)
  {
    Load(table, interval, SourceAliases, AsWrittenTolerance)
  }

  /** `load_and_prepare` with the grid test the down-sampling is meant to
      apply: the absolute tolerance only. Two kept rows never share a tick
      unless they lie within twice that tolerance of each other. */
  function LoadAndPrepareCorrected(table: Table, interval: real): (r: Result<Prepared, LoadError>)
    requires Rectangular(table) && interval > 0.0
    ensures r.Ok? ==> SchemaFits(r.value.schema, |table.header|)
                      && forall x :: x in r.value.samples <==>
                           x in SamplesOf(table, r.value.schema) && Kept(r.value.startTime, interval, IntendedTolerance, x.time)
    ensures r.Ok? ==> forall x, y :: x in r.value.samples && y in r.value.samples
                        && GridIndex(r.value.startTime, interval, IntendedTolerance, x.time)
                           == GridIndex(r.value.startTime, interval, IntendedTolerance, y.time)
                        ==> Abs(y.time - x.time) <= 2.0 * IntendedTolerance.atol
  {
    var r := Load(table, interval, SourceAliases, IntendedTolerance);
    if r.Ok? then
      SameTickWithinTolerance(r.value.samples, r.value.startTime, interval);
      r
    else r
  }

  /** `IntendedTickWidth` for every pair of a set of kept samples. */
  lemma SameTickWithinTolerance(samples: seq<Sample>, start: real, interval: real)
    requires interval > 0.0
    requires forall x :: x in samples ==> Kept(start, interval, IntendedTolerance, x.time)
    ensures forall x, y :: x in samples && y in samples
              && GridIndex(start, interval, IntendedTolerance, x.time) == GridIndex(start, interval, IntendedTolerance, y.time)
              ==> Abs(y.time - x.time) <= 2.0 * IntendedTolerance.atol
  {
    forall x, y | x in samples && y in samples
                  && GridIndex(start, interval, IntendedTolerance, x.time) == GridIndex(start, interval, IntendedTolerance, y.time)
      ensures Abs(y.time - x.time) <= 2.0 * IntendedTolerance.atol
    {
      IntendedTickWidth(start, interval, x.time, y.time);
    }
  }

  /** The rows of a non-empty table read through a resolved schema, the
      start time taken from the first row, and exactly the rows that pass the
      grid test kept, in order, the first among them. */
  function PrepareRows(table: Table, schema: Schema, interval: real, tol: Tolerance): (p: Prepared)
    requires Rectangular(table) && SchemaFits(schema, |table.header|)
    requires table.rows != [] && interval > 0.0 && ValidTolerance(tol)
    ensures p.schema == schema && p.startTime == table.rows[0][schema.time.index]
    ensures p.samples == Downsample(SamplesOf(table, schema), p.startTime, interval, tol)
    ensures p.samples != [] && p.samples[0] == SamplesOf(table, schema)[0] && p.samples[0].time == p.startTime
    ensures forall x :: x in p.samples <==> x in SamplesOf(table, schema) && Kept(p.startTime, interval, tol, x.time)
  {
    var samples := SamplesOf(table, schema);
    var start := samples[0].time;
    DownsampleKeepsFirst(samples, interval, tol);
    DownsampleMembers(samples, start, interval, tol);
    Prepared(schema, Downsample(samples, start, interval, tol), start)
  }

  function Times(s: seq<Sample>): (r: seq<real>)
    ensures |r| == |s| && forall i :: 0 <= i < |s| ==> r[i] == s[i].time
  {
    seq(|s|, i requires 0 <= i < |s| => s[i].time)
  }

  /** Even offsets land on a grid of step two, under any tolerances. */
  lemma KeptEven(n: nat, tol: Tolerance)
    requires ValidTolerance(tol)
    ensures Kept(0.0, 2.0, tol, (2 * n) as real)
  {
    OnGridKept(0.0, 2.0, tol, (2 * n) as real, n);
  }

  /** Odd offsets miss it by a whole second: dropped by the absolute
      tolerance always, and by the source's tolerance while the relative part
      1e-5 * 2n is below one second, that is for n below 50000. */
  lemma DroppedOdd(n: nat, tol: Tolerance)
    requires tol == IntendedTolerance || (tol == AsWrittenTolerance && n < 50000)
    ensures !Kept(0.0, 2.0, tol, (2 * n + 1) as real)
  {
    var t := (2 * n + 1) as real;
    assert (t - 0.0) / 2.0 + tol.eps == n as real + 0.500001;
    assert GridIndex(0.0, 2.0, tol, t) == n;
    assert (t - 0.0) - n as real * 2.0 == 1.0;
    assert tol.rtol * Abs(n as real * 2.0) <= 0.00001 * 99998.0;
  }

  /** From n = 50000 on, the source's relative tolerance reaches a whole
      second and odd offsets are kept too, on the tick below them. */
  lemma AsWrittenKeepsFarOdd(n: nat)
    requires n >= 50000
    ensures GridIndex(0.0, 2.0, AsWrittenTolerance, (2 * n + 1) as real) == n
    ensures Kept(0.0, 2.0, AsWrittenTolerance, (2 * n + 1) as real)
    ensures !Kept(0.0, 2.0, IntendedTolerance, (2 * n + 1) as real)
  {
    var t := (2 * n + 1) as real;
    assert (t - 0.0) / 2.0 + AsWrittenTolerance.eps == n as real + 0.500001;
    assert (t - 0.0) - n as real * 2.0 == 1.0;
    assert 1.0 <= AsWrittenTolerance.rtol * Abs(n as real * 2.0);
    DroppedOdd(n, IntendedTolerance);
  }

  /** One step of the filter, as a fact to call rather than unfold. */
  lemma DownsampleCons(s: seq<Sample>, start: real, interval: real, tol: Tolerance)
    requires interval > 0.0 && s != []
    ensures Downsample(s, start, interval, tol)
            == (if Kept(start, interval, tol, s[0].time) then [s[0]] else []) + Downsample(s[1..], start, interval, tol)
  {
  }

  /** A row at an even second followed by one at the next odd second: the
      first is kept, the second dropped. */
  lemma EvenOddPair(s: seq<Sample>, n: nat, tol: Tolerance)
    requires tol == IntendedTolerance || (tol == AsWrittenTolerance && n < 50000)
    requires 2 * n + 1 < |s|
    requires s[2 * n].time == (2 * n) as real && s[2 * n + 1].time == (2 * n + 1) as real
    ensures Downsample(s[2 * n..], 0.0, 2.0, tol) == [s[2 * n]] + Downsample(s[2 * n + 2..], 0.0, 2.0, tol)
  {
    var i := 2 * n;
    assert s[i..][0] == s[i] && s[i..][1..] == s[i + 1..];
    assert s[i + 1..][0] == s[i + 1] && s[i + 1..][1..] == s[i + 2..];
    DroppedOdd(n, tol);
    DownsampleCons(s[i + 1..], 0.0, 2.0, tol);
    KeptEven(n, tol);
    DownsampleCons(s[i..], 0.0, 2.0, tol);
  }

  /** Ten rows one second apart with an interval of two seconds keep the rows
      at offsets 0, 2, 4, 6 and 8, with the source's tolerance and with the
      absolute one alike. */
  lemma TenRowsEveryTwoSeconds(s: seq<Sample>, tol: Tolerance)
    requires tol == IntendedTolerance || tol == AsWrittenTolerance
    requires |s| == 10 && forall i :: 0 <= i < 10 ==> s[i].time == i as real
    ensures Times(Downsample(s, 0.0, 2.0, tol)) == [0.0, 2.0, 4.0, 6.0, 8.0]
  {
    EvenOddPair(s, 0, tol);
    assert s[0..] == s;
    EvenOddPair(s, 1, tol);
    EvenOddPair(s, 2, tol);
    EvenOddPair(s, 3, tol);
    EvenOddPair(s, 4, tol);
    KeepEveryOtherOfTen(s, 0.0, 2.0, tol);
  }

  /** Five pairs in a row, each keeping its first row, keep rows 0, 2, 4, 6
      and 8 of ten. */
  lemma KeepEveryOtherOfTen(s: seq<Sample>, start: real, interval: real, tol: Tolerance)
    requires interval > 0.0 && |s| == 10 && forall i :: 0 <= i < 10 ==> s[i].time == i as real
    requires Downsample(s, start, interval, tol) == [s[0]] + Downsample(s[2..], start, interval, tol)
    requires Downsample(s[2..], start, interval, tol) == [s[2]] + Downsample(s[4..], start, interval, tol)
    requires Downsample(s[4..], start, interval, tol) == [s[4]] + Downsample(s[6..], start, interval, tol)
    requires Downsample(s[6..], start, interval, tol) == [s[6]] + Downsample(s[8..], start, interval, tol)
    requires Downsample(s[8..], start, interval, tol) == [s[8]] + Downsample(s[10..], start, interval, tol)
    ensures Times(Downsample(s, start, interval, tol)) == [0.0, 2.0, 4.0, 6.0, 8.0]
  {
    assert s[10..] == [];
    var d0 := Downsample(s, start, interval, tol);
    assert d0 == [s[0], s[2], s[4], s[6], s[8]];
    var times := Times(d0);
    assert times[0] == 0.0 && times[1] == 2.0 && times[2] == 4.0 && times[3] == 6.0 && times[4] == 8.0;
  }
}
