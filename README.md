# Tracking-error replay and stability-certificate receiver, modelled in Dafny

The system replays a recorded flight-control experiment as if it were live.
A sender reads a CSV log of tracking error and its derivatives. It resolves
the columns by name and thins the rows to a fixed virtual-time grid. It then
releases a growing prefix of the rows as a snapshot file, one grid tick at a
time, on a virtual clock, and uploads each snapshot to an analysis server.
Two heads-up displays play the same log back on the same kind of clock,
showing a sliding time window with auto-scaled vertical axes. A receiver
watches the snapshot file. On the first data it opens a status window. After
every change it schedules one debounced status query, and the server's answer
switches the window to an alert or to a stability certificate.

The model has one module per concern:

- `Common`: Option and Result, plus integer min and max.
- `Text`: ASCII lower-casing, whitespace stripping and substring search, as
  the column matcher uses them.
- `ColumnResolution`: the two-pass column lookup of the sender.
- `Dataset`: the table, the grid down-sampling and the loading step.
- `VirtualClock`: `origin + scale * (wall - wall0)`, shared by the sender and
  both displays.
- `ReleaseScheduler`: the sender's release loop. It is a class whose fields
  are the loop's variables: the next index, the next tick, the file and the
  log of uploads.
- `WindowedPlayback`: one parametrised display model, with the window search,
  the mask, the pooled auto-range and the player's frame step. It is
  instantiated as the tracking display (two independent axes) and as the
  flight display (one shared axis).
- `SnapshotWatcher`: the receiver's poll step, its debounce timer as a
  deadline, the status dispatch and the window it drives.

All time and data values are `real`s. The sender's `EPS` and NumPy's
`isclose` tolerances are explicit constants.

## Model

| member | source | states |
|---|---|---|
| Text.Lower | update_input.py:32 | lower-casing keeps the length and maps each character through the ASCII case map |
| Text.Strip | update_input.py:29 | the result is a slice of the input with nothing but whitespace before and after it, and it neither begins nor ends with whitespace |
| Text.StripIdempotent | update_input.py:43 | stripping twice is stripping once, so the second strip in the column search changes nothing after the header strip |
| Text.Contains | update_input.py:36 | substring test: true exactly when the needle occurs at some offset of the haystack |
| ColumnResolution.StripAll | update_input.py:29 | every header name is stripped, position by position |
| ColumnResolution.Matches | update_input.py:32-36 | either pass accepts the name itself; an equality match is exactly as long as the name, and a substring match at least as long |
| ColumnResolution.FirstColumn | update_input.py:31-33 | the first column from a position that matches one name, or none when no later column matches |
| ColumnResolution.SearchPass | update_input.py:30-37 | one pass: the first candidate, in candidate order, that matches any column, and the first such column |
| ColumnResolution.FindColumn | update_input.py:28-38 | a found column is a valid index with its stripped name; the lookup fails, carrying the candidates and the header, exactly when no candidate is a case-insensitive substring of any stripped column |
| ColumnResolution.EqualityImpliesSubstring | update_input.py:32-36 | anything the equality pass accepts, the substring pass would accept too |
| ColumnResolution.EqualityPassWins | update_input.py:30-33 | an exact or case-insensitive match, first in candidate-then-column order, is the result, even if a substring match would come earlier |
| ColumnResolution.SubstringPassFallback | update_input.py:34-37 | with no equality match, the first substring match in candidate-then-column order is the result |
| ColumnResolution.TimeColumnExample | update_input.py:45 | with a "Time (s)" header the time aliases resolve to column 0 |
| ColumnResolution.ShorterHeaderFails | update_input.py:34-38 | when every candidate is longer than every header name, no substring match exists and the lookup fails |
| ColumnResolution.MissingColumnExample | update_input.py:38 | a header without the tracking-error column makes the lookup fail |
| Dataset.Downsample | update_input.py:55-58 | thinning never adds rows |
| Dataset.GridIndex | update_input.py:56 | the grid index is the largest integer not above the offset in intervals plus EPS |
| Dataset.OnGridKept | update_input.py:55-57 | a time exactly k intervals after the start has grid index k and is kept, under NumPy's default tolerance as under the absolute one |
| Dataset.DownsampleMembers | update_input.py:57-58 | a row survives exactly when it is in the input and passes the closeness test for its grid tick |
| Dataset.DownsampleAppend | update_input.py:58 | the row filter distributes over concatenation, so it keeps the input order |
| Dataset.DownsampleSorted | update_input.py:58 | rows sorted by time stay sorted |
| Dataset.FirstRowKept | update_input.py:52-57 | the start time has grid index 0 and is always kept |
| Dataset.DownsampleKeepsFirst | update_input.py:52-58 | the first row of the input is the first row of the output |
| Dataset.ExactKeptIffOnGrid | update_input.py:55-57 | with zero tolerances a time is kept exactly when it is start plus an integer multiple of the interval |
| Dataset.IntendedTickWidth | update_input.py:56-57 | with the absolute tolerance alone, two kept rows of the same tick lie within two tolerances of each other |
| Dataset.AsWrittenKeepsOffGridRow | update_input.py:57 | with NumPy's default relative tolerance, offsets 3000.0 and 3000.02 at interval 30 both count as tick 100 and are both kept; the absolute tolerance alone drops 3000.02 |
| Dataset.AsWrittenKeepsFarOdd | update_input.py:56-57 | at interval 2 and from n = 50000 on, NumPy's default relative tolerance keeps the odd time 2n + 1 as tick n; the absolute tolerance drops it |
| Dataset.PrepareRows | update_input.py:52-58 | for a non-empty table and a given grid tolerance: the start time is the first row's time; the samples are the down-sampling of all rows from that start, so a row is kept exactly when it passes the grid test, in order, and the first row comes first |
| Dataset.SamplesOf | update_input.py:45-50 | one sample per row, read from the resolved columns |
| Dataset.ResolveSchema | update_input.py:45-50 | the four lookups succeed together exactly when each of time, te, dte and ddte resolves, and then give the schema of the four columns found, each inside the header; otherwise the first of them, in that order, that does not resolve is the error |
| Dataset.Load | update_input.py:41-60 | for any alias lists and grid tolerance: loading succeeds exactly when there are rows and the schema resolves; a schema error is reported as the missing column even when there are no rows, and a resolved schema with no rows is `NoRows`; on success the schema is the one resolved, the start time is the first row's time, and the samples are the down-sampling of all rows, so a row is kept exactly when it passes the grid test |
| Dataset.LoadColumnOutcomes | update_input.py:41-52 | the outcome of loading in terms of the four lookups: success exactly when there are rows and all four columns resolve; the first of time, te, dte and ddte that does not resolve is reported; all four found and no rows gives `NoRows`; on success the schema holds the four columns found |
| Dataset.LoadAndPrepare | update_input.py:41-60 | with the source's alias lists and grid test as written (EPS, `atol=1e-6` and NumPy's default `rtol=1e-5`), a row is kept exactly when it passes that test for its tick |
| Dataset.LoadAndPrepareCorrected | update_input.py:55-58 | with the absolute tolerance alone, a row is kept exactly when it passes that test, and two kept rows of the same tick lie within 2e-6 of each other |
| Dataset.Times | update_input.py:55 | the time of each sample, in order |
| Dataset.KeptEven | update_input.py:56-57 | at interval 2 every even time is kept, under any valid tolerance |
| Dataset.DroppedOdd | update_input.py:56-57 | at interval 2 the odd time 2n + 1 is dropped by the absolute tolerance for every n, and by NumPy's default tolerance for every n below 50000 |
| Dataset.EvenOddPair | update_input.py:56-58 | of a row at the even time 2n and its odd successor only the first is kept, under the absolute tolerance for every n and under NumPy's default below n = 50000 |
| Dataset.TenRowsEveryTwoSeconds | update_input.py:52-58 | ten rows one second apart thinned to a two-second grid keep times 0, 2, 4, 6 and 8, under the source's tolerance and under the absolute one |
| VirtualClock.Now | tracking_error_rolling.py:22-23 | at the starting wall time the clock reads its origin; with a non-negative scale it never reads below the origin afterwards; at scale 1 it advances exactly with wall time |
| VirtualClock.NowMonotone | tracking_error_rolling.py:22-23 | with a non-negative scale, virtual time never runs backwards and advances by scale times the wall interval |
| ReleaseScheduler.SnapshotOf | update_input.py:79-81 | a snapshot of n rows holds, row by row, (te, dte) in `e` and (dte, ddte) in `de` |
| ReleaseScheduler.SnapshotGrows | update_input.py:79-83 | each release adds exactly the next row to the previous snapshot |
| ReleaseScheduler.SnapshotPrefix | update_input.py:79 | an earlier snapshot is a strict prefix of every later one |
| ReleaseScheduler.DueCount | update_input.py:78 | the due count r counts the ticks reached at vt: tick r - 1 is at most vt + EPS and tick r lies beyond it |
| ReleaseScheduler.DueCountSpec | update_input.py:78-90 | tick k is due at virtual time vt, meaning start + k·interval <= vt + EPS, exactly when k is below the due count |
| ReleaseScheduler.TickMonotone | update_input.py:90 | release ticks `start_time + next_idx * interval` come in order: a later index never has an earlier tick |
| ReleaseScheduler.DueCountMonotone | update_input.py:74-78 | later virtual times make at least as many ticks due |
| ReleaseScheduler.AllDueAfterLastTick | update_input.py:93 | once the last row's tick is due, every row is due |
| ReleaseScheduler.FiveTicksByEight | update_input.py:78 | on a two-second grid five ticks are due at time 8 and four at 7.9 |
| ReleaseScheduler.Releases | update_input.py:78-91 | the i-th upload of a batch is the snapshot of the first from+i+1 rows |
| ReleaseScheduler.ReleasesSplit | update_input.py:73-91 | releases over consecutive ranges concatenate |
| ReleaseScheduler.Scheduler.constructor | update_input.py:69-71 | nothing is released, and the next tick is the start time |
| ReleaseScheduler.Scheduler.Upload | update_input.py:9-15 | the current file is appended to the upload log, and a failed upload changes nothing else |
| ReleaseScheduler.Scheduler.Release | update_input.py:79-91 | one inner-loop iteration: the file becomes the snapshot of the first next_idx + 1 rows, exactly that snapshot is uploaded, and the index and tick advance by one |
| ReleaseScheduler.Scheduler.Pass | update_input.py:76-91 | releases every due row that is left, so the index becomes the larger of its old value and the due count capped at the row count; uploads grow by exactly those snapshots; reports whether anything was released |
| ReleaseScheduler.Scheduler.Step | update_input.py:73-98 | one outer iteration at a wall time: the same release; it finishes exactly when every row is out, and sleeps exactly when rows remain and none was released |
| ReleaseScheduler.Scheduler.Run | update_input.py:63-98 | over monotone wall times: the index never decreases; a finished run has released every row; an unfinished run consumed every wall time; the uploads are the snapshots in order |
| WindowedPlayback.SearchSorted | tracking_error_rolling.py:79 | the leftmost insertion point: every earlier time is below vt and every later one is at least vt |
| WindowedPlayback.Mask | tracking_error_rolling.py:87 | ascending indices of exactly the times inside the closed window |
| WindowedPlayback.Select | tracking_error_rolling.py:88-89 | the series values at the mask's indices, in order |
| WindowedPlayback.SeqMin | tracking_error_rolling.py:92 | an element of the window no larger than any other |
| WindowedPlayback.SeqMax | tracking_error_rolling.py:92 | an element of the window no smaller than any other |
| WindowedPlayback.SeqMinConcat | flight_rolling.py:96 | the minimum of two windows pooled is the smaller of their minima |
| WindowedPlayback.SeqMaxConcat | flight_rolling.py:97 | the maximum of two windows pooled is the larger of their maxima |
| WindowedPlayback.Pool | flight_rolling.py:91-97 | the windowed values of every series on an axis, non-empty when the window is |
| WindowedPlayback.PoolMembers | flight_rolling.py:92-97 | every windowed value of every series on the axis is in the pool |
| WindowedPlayback.AutoRange | tracking_error_rolling.py:94-100 | for data extremes lo <= hi, the range contains them and is at least the minimum range wide |
| WindowedPlayback.AutoRangeShape | tracking_error_rolling.py:94-100 | a narrow span becomes the minimum range centred on the midpoint; a wide one is padded by the pad fraction of the span on each side |
| WindowedPlayback.WindowPool | tracking_error_rolling.py:87-92 | every windowed sample of every series on the axis is in the pool, which is non-empty when the window is |
| WindowedPlayback.AxisLimits | tracking_error_rolling.py:91-102 | with at most five windowed samples the limits stay as they were; with more, they are the auto-range of the minimum and maximum of the pooled windowed samples, so they cover every windowed sample of every series on the axis and are at least the minimum range wide |
| WindowedPlayback.FrameYlims | tracking_error_rolling.py:91-115 | each axis gets its own limits from its own series |
| WindowedPlayback.PoolReadsOnlyShown | flight_rolling.py:91-97 | the pool depends only on the series the axis shows |
| WindowedPlayback.AxisLimitsReadsOnlyShown | tracking_error_rolling.py:91-115 | an axis's limits depend only on the series it shows |
| WindowedPlayback.TrackingAxesIndependent | tracking_error_rolling.py:91-115 | in the tracking display the error axis ignores the derivative and the derivative axis ignores the error |
| WindowedPlayback.PoolTwo | flight_rolling.py:92-93 | the flight display pools the reference window followed by the altitude window |
| WindowedPlayback.FlightSharedExtremes | flight_rolling.py:95-97 | the shared axis spans from the smaller of the two minima to the larger of the two maxima |
| WindowedPlayback.Player.Tracking | tracking_error_rolling.py:30-72 | the tracking display: both series on separate axes, the window centred on the first time, nothing drawn yet |
| WindowedPlayback.Player.Flight | flight_rolling.py:31-77 | the flight display: reference and altitude on one shared axis, the window centred on the first time, nothing drawn yet |
| WindowedPlayback.Player.Update | tracking_error_rolling.py:77-122 | one frame at a wall time: the window and marker centred on the virtual time, the lines drawn up to the insertion point, the axis limits as the auto-range gives them, and the animation stopped once the virtual time reaches the last sample |
| WindowedPlayback.Player.Tick | flight_rolling.py:81-114 | a stopped player changes nothing; a running one does one frame |
| SnapshotWatcher.PollStep | usr_receiver.py:244-259 | a missing file or an unchanged mtime changes nothing and asks for nothing; a change records the new mtime; the window starts exactly on a change with at least one row while it is not yet started, and each start comes with a scheduled query |
| SnapshotWatcher.UiStartsAtMostOnce | usr_receiver.py:251-256 | over any run of polls the window is started at most once, never if it already was, and ends up started exactly when it was before or is started in the run |
| SnapshotWatcher.TimerStep | usr_receiver.py:232-237 | scheduling cancels any pending timer and arms a single one a delay later; a clock reading fires the pending deadline exactly when it has reached it, and clears it; otherwise nothing changes |
| SnapshotWatcher.NothingFiresWithoutTimer | usr_receiver.py:232-237 | with no pending timer, time passing sends no query |
| SnapshotWatcher.OnlyClocksAfterDeadline | usr_receiver.py:232-237 | within a burst, once the deadline is reached no reschedule follows |
| SnapshotWatcher.BurstFiresOnce | usr_receiver.py:232-237 | over a burst of reschedules less than a delay apart, at most one query fires, at the last reschedule plus the delay, and it fires exactly when time reaches that deadline |
| SnapshotWatcher.DebounceFiresOnceAtEnd | usr_receiver.py:232-237 | a burst that ends with time past its last deadline sends exactly one query |
| SnapshotWatcher.ReachedByFinalClock | usr_receiver.py:232-237 | a final clock reading past the last deadline reaches it |
| SnapshotWatcher.Dispatch | usr_receiver.py:215-226 | "fail" shows the alert, "success" fetches the formula, and every other status is ignored |
| SnapshotWatcher.FailScreen | usr_receiver.py:169-184 | without a window root nothing happens; with one the window shows the alert |
| SnapshotWatcher.SuccessScreen | usr_receiver.py:187-209 | without a window root nothing happens; with one the window shows the certificate whose formula is the file's text stripped of surrounding whitespace (a slice of the file with only whitespace around it), empty when there is no file |
| SnapshotWatcher.QueryOutcome | usr_receiver.py:212-229 | no window appears or disappears; the window changes only on a "fail" or "success" status; with a window root a "fail" status shows the alert and keeps the file; a "success" status with a formula reply shows the certificate of the file as it then is; the file changes only on "success" with a non-empty formula, which it then holds |
| SnapshotWatcher.FormulaOutcome | usr_receiver.py:220-226 | after a "success" status: a failed formula request changes nothing; a non-empty formula becomes the file, an empty one leaves it; the window, when there is a root, shows the certificate of the file as it then is |
| SnapshotWatcher.QueryFailuresChangeNothing | usr_receiver.py:212-229 | a failed request, an unrecognised or missing status, or a failed formula request leaves the window and the file as they were |
| SnapshotWatcher.SuccessWritesNonEmptyFormula | usr_receiver.py:220-226 | on success the file is rewritten only with a non-empty formula, and the window shows that formula stripped |
| SnapshotWatcher.VerdictsNotTerminal | usr_receiver.py:169-209 | a later "fail" replaces the certificate and a later "success" replaces the alert |
| SnapshotWatcher.Watcher.constructor | usr_receiver.py:22-29 | no mtime seen, no window, no pending timer, no formula file |
| SnapshotWatcher.Watcher.ScheduleQuery | usr_receiver.py:232-237 | the pending deadline becomes now plus the delay, whatever was pending |
| SnapshotWatcher.Watcher.Poll | usr_receiver.py:240-261 | one loop iteration does what the poll step prescribes: it starts the window thread at most once and re-arms the timer on every change with data |
| SnapshotWatcher.Watcher.UiReady | usr_receiver.py:139-166 | the window thread has built its root, which shows the waiting face |
| SnapshotWatcher.Watcher.QueryOnce | usr_receiver.py:212-229 | the window and the file end as the query outcome prescribes |
| SnapshotWatcher.Watcher.TimerCheck | usr_receiver.py:236-237 | a due timer fires once, clears itself and sends one query; otherwise nothing changes |

## Left out

- Floating point: every number is a mathematical real. Rounding of the CSV
  times, of `rel / interval` and of the products is not modelled. The
  tolerances are exact reals: EPS, `atol` and NumPy's default `rtol` are the
  source's constants, and `LoadAndPrepare` uses all three.
- Text.Lower and Text.Strip: ASCII only. Python's `str.lower` and `str.strip`
  also fold and strip non-ASCII characters.
- CSV parsing, `pd.to_numeric(..., errors="coerce")` and NaN times: the table
  arrives as parsed reals, so a non-numeric time cell is not modelled.
- Dataset.LoadAndPrepare: requires a rectangular table, which the CSV reader
  guarantees.
- Duplicate header names after stripping: the model returns the first
  matching position, while pandas would select every column of that name.
- File writes (`np.savez`, the formula file) are fields of the model's
  state. File reads (`os.path.exists`, `getmtime`, `np.load`) are inputs.
- ReleaseScheduler.Scheduler.Upload: the HTTP request and the printed
  message are not modelled. An upload is logged, and any failure is
  swallowed, as in the source.
- The server's replies are inputs: each is an exception or a JSON body
  whose key may be missing. Timeouts behave as exceptions.
- Threads, Tk's event loop and `root.after`: a switch of the window takes
  effect at once. The window thread's start-up is the separate `UiReady`
  step.
- Timers: `threading.Timer` is a deadline compared with explicit clock
  readings. Sleeping (`time.sleep`) is the passage of wall time between the
  scheduler's steps.
- An exception from `np.load` in the poll loop ends the receiver. The model
  treats every present file as readable.
- WindowedPlayback.Player.Tracking and WindowedPlayback.Player.Flight:
  require a non-empty, time-sorted log. The source indexes `t[0]` and fails
  on an empty log, and `searchsorted` assumes sorted times.
- The displays' initial vertical limits, which are matplotlib's defaults,
  are a parameter.
- Rendering is not part of this model: colours, fonts, the LaTeX formula
  image and the Lyapunov surface plot.
- `parse_quadratic_coeffs` and `pipeline.py` (the launcher) are not part of
  this model.

## Findings

| source | as written | input that shows it | evidently intended | confidence | as-written member | corrected member |
|---|---|---|---|---|---|---|
| update_input.py:57 | `np.isclose(rel, k * interval, atol=1e-6)` keeps NumPy's default `rtol=1e-5`, so the keep window widens with the offset from the start | interval 30, rows at offsets 3000.0 and 3000.02: both get tick 100 and both are kept | keep only rows within the absolute tolerance of a grid tick (`rtol=0`), so each tick keeps one row | not executed | Dataset.AsWrittenKeepsOffGridRow | Dataset.LoadAndPrepareCorrected |

`Dataset.LoadAndPrepare` models the grid test as written. The corrected test
is `Dataset.LoadAndPrepareCorrected`, with the intended property proved in its
contract. `Dataset.AsWrittenKeepsFarOdd` and `Dataset.DroppedOdd` show where
the two tests part at interval 2. The release loop takes the kept rows as its
input, so it is proved for either test.
