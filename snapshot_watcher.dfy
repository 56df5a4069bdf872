/** The receiver side (usr_receiver.py): a poll loop that watches the snapshot
    file, starts the status window on the first data, and debounces every
    change into one delayed status query whose answer switches the window to
    the alert or the certificate. Files, the network and threads become
    explicit observations, replies and times. */
module SnapshotWatcher {
  import opened Common
  import opened Text

  /** `TRIGGER_DELAY`, in seconds. */
  const TriggerDelay: real := 1.0

  /** `MIN_POINTS`: the fewest rows for which a query is scheduled. */
  const MinPoints: nat := 1

  /** One poll of the snapshot file: whether it exists, its modification
      time, and the number of rows of its `e` matrix. */
  datatype Observation = Observation(present: bool, mtime: real, rows: nat)

  // ---------------------------------------------------------------------
  // The poll step

  datatype PollState = PollState(lastMtime: Option<real>, uiStarted: bool)

  /** What one poll asks for besides the state change. */
  datatype PollEffects = PollEffects(startUi: bool, reschedule: bool)

  predicate Changed(s: PollState, obs: Observation) {
    obs.present && (s.lastMtime.None? || obs.mtime != s.lastMtime.value)
  }

  /** The body of `monitor_npz`'s loop. A missing file or an unchanged
      modification time changes nothing and asks for nothing; a change records
      the new time. The window is started only on a change with at least one
      row while it is not yet started, and every such start comes with a
      query being scheduled. */
  function PollStep(s: PollState, obs: Observation): (r: (PollState, PollEffects))
    ensures !Changed(s, obs) ==> r == (s, PollEffects(false, false))
    ensures Changed(s, obs) ==> r.0.lastMtime == Some(obs.mtime)
    ensures r.1.startUi <==> Changed(s, obs) && obs.rows >= 1 && !s.uiStarted
    ensures r.1.reschedule <==> Changed(s, obs) && obs.rows >= MinPoints
    ensures r.0.uiStarted <==> s.uiStarted || r.1.startUi
    ensures r.1.startUi ==> r.1.reschedule
  {
    if !Changed(s, obs) then (s, PollEffects(false, false))
    else
      var startUi := obs.rows >= 1 && !s.uiStarted;
      (PollState(Some(obs.mtime), s.uiStarted || startUi), PollEffects(startUi, obs.rows >= MinPoints))
  }

  /** The state after a run of polls, and how many of them started the
      window. */
  function PollRun(s: PollState, obs: seq<Observation>): (PollState, nat)
    decreases obs
  {
    if obs == [] then (s, 0)
    else
      var (s1, fx) := PollStep(s, obs[0]);
      var (s2, n) := PollRun(s1, obs[1..]);
      (s2, n + (if fx.startUi then 1 else 0))
  }

  /** Over any run of polls the window is started at most once, never when it
      already was, and it ends up started exactly when it was started before
      or is started in the run. */
  lemma {:induction false} UiStartsAtMostOnce(s: PollState, obs: seq<Observation>)
    ensures PollRun(s, obs).1 <= (if s.uiStarted then 0 else 1)
    ensures PollRun(s, obs).0.uiStarted <==> s.uiStarted || PollRun(s, obs).1 == 1
    decreases obs
  {
    if obs != [] {
      var (s1, fx) := PollStep(s, obs[0]);
      UiStartsAtMostOnce(s1, obs[1..]);
    }
  }

  // ---------------------------------------------------------------------
  // The debounce timer, as a deadline

  /** `schedule_query` at a time, or the passing of time. */
  datatype TimerEvent = Reschedule(at: real) | Clock(at: real)

  /** One event against the pending deadline, returning the new deadline and
      the one that fired. A reschedule cancels any pending timer and arms a
      single new one, one delay later; a clock reading fires the pending
      deadline exactly when it has been reached, and clears it. */
  function TimerStep(pending: Option<real>, ev: TimerEvent): (r: (Option<real>, Option<real>))
    ensures ev.Reschedule? ==> r == (Some(ev.at + TriggerDelay), None)
    ensures r.1.Some? <==> ev.Clock? && pending.Some? && pending.value <= ev.at
    ensures r.1.Some? ==> r == (None, pending)
    ensures ev.Clock? && r.1.None? ==> r.0 == pending
  {
    match ev
    case Reschedule(at) => (Some(at + TriggerDelay), None)
    case Clock(at) =>
      if pending.Some? && pending.value <= at then (None, Some(pending.value)) else (pending, None)
  }

  /** The deadlines that fire, in order, over a run of events. */
  function Fired(pending: Option<real>, evs: seq<TimerEvent>): seq<real>
    decreases evs
  {
    if evs == [] then []
    else
      var (p, f) := TimerStep(pending, evs[0]);
      (if f.Some? then [f.value] else []) + Fired(p, evs[1..])
  }

  predicate Chronological(evs: seq<TimerEvent>) {
    forall i, j :: 0 <= i < j < |evs| ==> evs[i].at <= evs[j].at
  }

  /** Each reschedule comes less than one delay after the previous one,
      `last` being the time of the reschedule before the run. */
  predicate Burst(last: real, evs: seq<TimerEvent>)
    decreases evs
  {
    if evs == [] then true
    else match evs[0]
      case Reschedule(at) => at < last + TriggerDelay && Burst(at, evs[1..])
      case Clock(_) => Burst(last, evs[1..])
  }

  /** The time of the last reschedule in the run, `last` if there is none. */
  function LastReschedule(last: real, evs: seq<TimerEvent>): real
    decreases evs
  {
    if evs == [] then last
    else match evs[0]
      case Reschedule(at) => LastReschedule(at, evs[1..])
      case Clock(_) => LastReschedule(last, evs[1..])
  }

  /** Some clock reading reaches the deadline in force at its time. */
  predicate Reached(last: real, evs: seq<TimerEvent>)
    decreases evs
  {
    if evs == [] then false
    else match evs[0]
      case Reschedule(at) => Reached(at, evs[1..])
      case Clock(c) => last + TriggerDelay <= c || Reached(last, evs[1..])
  }

  predicate OnlyClocks(evs: seq<TimerEvent>) {
    forall i :: 0 <= i < |evs| ==> evs[i].Clock?
  }

  lemma {:induction false} NothingFiresWithoutTimer(evs: seq<TimerEvent>)
    requires OnlyClocks(evs)
    ensures Fired(None, evs) == []
  {
    if evs != [] {
      NothingFiresWithoutTimer(evs[1..]);
    }
  }

  /** Within a burst, a reading that reaches the deadline can only be followed
      by more readings: a later reschedule would have had to come earlier. */
  lemma {:induction false} OnlyClocksAfterDeadline(last: real, c: real, evs: seq<TimerEvent>)
    requires last + TriggerDelay <= c
    requires forall i :: 0 <= i < |evs| ==> c <= evs[i].at
    requires Burst(last, evs)
    ensures OnlyClocks(evs)
    ensures LastReschedule(last, evs) == last
    decreases evs
  {
    if evs != [] {
      match evs[0]
      case Reschedule(at) =>
        assert false;
      case Clock(_) =>
        OnlyClocksAfterDeadline(last, c, evs[1..]);
    }
  }

  /** The debounce: over a chronological burst, with the pending deadline one
      delay after the reschedule at `last`, at most one query fires, and it
      fires at the last reschedule plus the delay exactly when some reading
      reaches that deadline. */
  lemma {:induction false} BurstFiresOnce(last: real, evs: seq<TimerEvent>)
    requires Chronological(evs) && Burst(last, evs)
    ensures Fired(Some(last + TriggerDelay), evs)
            == if Reached(last, evs) then [LastReschedule(last, evs) + TriggerDelay] else []
    decreases evs
  {
    if evs != [] {
      assert Chronological(evs[1..]);
      match evs[0]
      case Reschedule(at) =>
        BurstFiresOnce(at, evs[1..]);
      case Clock(c) =>
        if last + TriggerDelay <= c {
          assert forall i :: 0 <= i < |evs[1..]| ==> c <= evs[1..][i].at;
          OnlyClocksAfterDeadline(last, c, evs[1..]);
          NothingFiresWithoutTimer(evs[1..]);
        } else {
          BurstFiresOnce(last, evs[1..]);
        }
    }
  }

  /** A burst that starts with a reschedule and ends with a reading one delay
      after its last reschedule fires exactly one query, at that time. */
  lemma DebounceFiresOnceAtEnd(evs: seq<TimerEvent>)
    requires |evs| >= 2 && evs[0].Reschedule? && Chronological(evs)
    requires Burst(evs[0].at, evs[1..])
    requires evs[|evs| - 1].Clock? && LastReschedule(evs[0].at, evs[1..]) + TriggerDelay <= evs[|evs| - 1].at
    ensures Fired(None, evs) == [LastReschedule(evs[0].at, evs[1..]) + TriggerDelay]
  {
    var rest := evs[1..];
    assert Chronological(rest);
    BurstFiresOnce(evs[0].at, rest);
    ReachedByFinalClock(evs[0].at, rest);
  }

  /** A final reading at or after the last deadline reaches it. */
  lemma {:induction false} ReachedByFinalClock(last: real, evs: seq<TimerEvent>)
    requires evs != [] && evs[|evs| - 1].Clock?
    requires LastReschedule(last, evs) + TriggerDelay <= evs[|evs| - 1].at
    ensures Reached(last, evs)
    decreases evs
  {
    if |evs| > 1 {
      assert evs[1..][|evs[1..]| - 1] == evs[|evs| - 1];
      match evs[0]
      case Reschedule(at) =>
        ReachedByFinalClock(at, evs[1..]);
      case Clock(_) =>
        ReachedByFinalClock(last, evs[1..]);
    }
  }

  // ---------------------------------------------------------------------
  // The query and the status window

  /** The window's three faces; `None` while no window root exists. */
  datatype Screen = Waiting | Alert | Certificate(formula: string)

  /** The reply to the status request: an exception, or a JSON body whose
      `status` key may be missing. */
  datatype StatusReply = StatusError | StatusBody(status: Option<string>)

  /** The reply to the formula request, likewise. */
  datatype FormulaReply = FormulaError | FormulaBody(formula: Option<string>)

  datatype Action = ShowAlert | FetchFormula | Ignore

  /** The dispatch on the status string: "fail" and "success" act, every
      other value (the default "unknown" among them) is ignored. */
  function Dispatch(status: string): (a: Action)
    ensures a == ShowAlert <==> status == "fail"
    ensures a == FetchFormula <==> status == "success"
    ensures a == Ignore <==> status != "fail" && status != "success"
  {
    if status == "fail" then ShowAlert
    else if status == "success" then FetchFormula
    else Ignore
  }

  /** `switch_to_fail_ui`: the alert, and no effect without a window root. */
  function FailScreen(screen: Option<Screen>): (r: Option<Screen>)
    ensures r.None? <==> screen.None?
    ensures screen.Some? ==> r == Some(Alert)
  {
    if screen.None? then None else Some(Alert)
  }

  /** `switch_to_success_ui`: the certificate with the formula file read back
      and stripped ("" when there is none); no effect without a window root. */
  function SuccessScreen(screen: Option<Screen>, file: Option<string>): (r: Option<Screen>)
    ensures r.None? <==> screen.None?
    ensures screen.Some? ==> r.value.Certificate? && exists i :: StrippedAt(file.GetOr(""), r.value.formula, i)
    ensures file.None? && screen.Some? ==> r == Some(Certificate(""))
    ensures screen.Some? ==> r == Some(Certificate(Strip(file.GetOr(""))))
  {
    if screen.None? then None else Some(Certificate(Strip(file.GetOr(""))))
  }

  /** `query_srv_once`: the new window and formula file. Without a window
      root no window appears; the window changes only on a "fail" or
      "success" status; the file changes only on "success" with a non-empty
      formula, which it then holds. */
  function QueryOutcome(screen: Option<Screen>, file: Option<string>, status: StatusReply, formula: FormulaReply)
    : (r: (Option<Screen>, Option<string>))
    ensures r.0.None? <==> screen.None?
    ensures r.0 != screen ==> status.StatusBody? && status.status.Some?
                              && (status.status.value == "fail" || status.status.value == "success")
    ensures r.1 != file ==> status == StatusBody(Some("success")) && formula.FormulaBody?
                            && formula.formula.Some? && formula.formula.value != "" && r.1 == formula.formula
    ensures screen.Some? && status == StatusBody(Some("fail")) ==> r == (Some(Alert), file)
    ensures status == StatusBody(Some("success")) && formula.FormulaBody? ==> r.0 == SuccessScreen(screen, r.1)
  {
    match status
    case StatusError => (screen, file)
    case StatusBody(s) =>
      match Dispatch(s.GetOr("unknown"))
      case ShowAlert =>
        assert status == StatusBody(Some("fail"));
        (FailScreen(screen), file)
      case Ignore => (screen, file)
      case FetchFormula =>
        assert status == StatusBody(Some("success"));
        FormulaOutcome(screen, file, formula)
  }

  /** The second half of `query_srv_once`, after a "success" status: a failed
      formula request changes nothing; otherwise a non-empty formula replaces
      the file, and the certificate shows the file as it then is. */
  function FormulaOutcome(screen: Option<Screen>, file: Option<string>, formula: FormulaReply)
    : (r: (Option<Screen>, Option<string>))
    ensures r.0.None? <==> screen.None?
    ensures formula.FormulaError? ==> r == (screen, file)
    ensures r.1 != file ==> formula.FormulaBody? && formula.formula.Some? && formula.formula.value != ""
                            && r.1 == formula.formula
    ensures formula.FormulaBody? && formula.formula.GetOr("") != "" ==> r.1 == formula.formula
    ensures formula.FormulaBody? ==> r.0 == SuccessScreen(screen, r.1)
  {
    match formula
    case FormulaError => (screen, file)
    case FormulaBody(f) =>
      var text := f.GetOr("");
      var file' := if text != "" then Some(text) else file;
      (SuccessScreen(screen, file'), file')
  }

  /** A failed request, a missing or unrecognised status, and a failed formula
      request all leave the window and the file as they were. */
  lemma QueryFailuresChangeNothing(screen: Option<Screen>, file: Option<string>, status: StatusReply, formula: FormulaReply)
    requires status.StatusError?
             || (status.StatusBody? && status.status.GetOr("unknown") != "fail" && status.status.GetOr("unknown") != "success")
             || (status == StatusBody(Some("success")) && formula.FormulaError?)
    ensures QueryOutcome(screen, file, status, formula) == (screen, file)
  {
  }

  /** The file is written only on success and only with a non-empty formula;
      the window shows that formula. */
  lemma SuccessWritesNonEmptyFormula(screen: Option<Screen>, file: Option<string>, status: StatusReply, f: string)
    requires status == StatusBody(Some("success"))
    ensures var (screen', file') := QueryOutcome(screen, file, status, FormulaBody(Some(f)));
            && file' == (if f != "" then Some(f) else file)
            && (screen.Some? && f != "" ==> screen' == Some(Certificate(Strip(f))))
  {
  }

  /** Neither face is final: a later "fail" replaces the certificate and a
      later "success" replaces the alert. */
  lemma VerdictsNotTerminal(formula: string, file: Option<string>)
    ensures QueryOutcome(Some(Certificate(formula)), file, StatusBody(Some("fail")), FormulaError).0 == Some(Alert)
    ensures QueryOutcome(Some(Alert), file, StatusBody(Some("success")), FormulaBody(None)).0.value.Certificate?
  {
  }

  // ---------------------------------------------------------------------
  // The receiver's module state

  class Watcher {
    var lastMtime: Option<real>
    var uiStarted: bool
    /** How many times the window thread was started. */
    var uiLaunches: nat
    /** The deadline of the pending timer, if any. */
    var pending: Option<real>
    /** How many queries have been sent. */
    var queries: nat
    var screen: Option<Screen>
    /** The content of the local formula file, if it exists. */
    var formulaFile: Option<string>

    ghost predicate Valid()
      reads this
    {
      uiLaunches == (if uiStarted then 1 else 0) && (screen.Some? ==> uiStarted)
    }

    constructor ()
      ensures Valid()
      ensures lastMtime == None && !uiStarted && pending == None && queries == 0
      ensures screen == None && formulaFile == None
    {
      lastMtime, uiStarted, uiLaunches := None, false, 0;
      pending, queries := None, 0;
      screen, formulaFile := None, None;
    }

    /** `schedule_query`: cancel the pending timer and arm a new one. */
    method ScheduleQuery(now: real)
      modifies this`pending
      ensures pending == TimerStep(old(pending), Reschedule(now)).0
      ensures pending == Some(now + TriggerDelay)
    {
      pending := Some(now + TriggerDelay);
    }

    /** One iteration of `monitor_npz` at time `now`. */
    method Poll(obs: Observation, now: real)
      requires Valid()
      modifies this
      ensures Valid()
      ensures var (s, fx) := PollStep(PollState(old(lastMtime), old(uiStarted)), obs);
              && PollState(lastMtime, uiStarted) == s
              && uiLaunches == old(uiLaunches) + (if fx.startUi then 1 else 0)
              && pending == (if fx.reschedule then Some(now + TriggerDelay) else old(pending))
      ensures queries == old(queries) && screen == old(screen) && formulaFile == old(formulaFile)
    {
      if obs.present {
        if lastMtime.None? || obs.mtime != lastMtime.value {
          lastMtime := Some(obs.mtime);
          if obs.rows >= 1 && !uiStarted {
            uiStarted := true;
            uiLaunches := uiLaunches + 1;
          }
          if obs.rows >= MinPoints {
            ScheduleQuery(now);
          }
        }
      }
    }

    /** The window thread has built its root and shows the waiting face. */
    method UiReady()
      requires Valid() && uiStarted && screen.None?
      modifies this`screen
      ensures Valid() && screen == Some(Waiting)
    {
      screen := Some(Waiting);
    }

    /** `query_srv_once`, with the two replies as inputs. */
    method QueryOnce(status: StatusReply, formula: FormulaReply)
      requires Valid()
      modifies this`screen, this`formulaFile
      ensures Valid()
      ensures (screen, formulaFile) == QueryOutcome(old(screen), old(formulaFile), status, formula)
    {
      if status.StatusBody? {
        var s := status.status.GetOr("unknown");
        if s == "fail" {
          if screen.Some? {
            screen := Some(Alert);
          }
        } else if s == "success" {
          if formula.FormulaBody? {
            var text := formula.formula.GetOr("");
            if text != "" {
              formulaFile := Some(text);
            }
            if screen.Some? {
              screen := Some(Certificate(Strip(formulaFile.GetOr(""))));
            }
          }
        }
      }
    }

    /** Time passes to `now`: a due timer fires and sends one query. */
    method TimerCheck(now: real, status: StatusReply, formula: FormulaReply)
      requires Valid()
      modifies this
      ensures Valid()
      ensures var (p, f) := TimerStep(old(pending), Clock(now));
              && pending == p
              && queries == old(queries) + (if f.Some? then 1 else 0)
              && (screen, formulaFile) == (if f.Some? then QueryOutcome(old(screen), old(formulaFile), status, formula)
                                           else (old(screen), old(formulaFile)))
      ensures lastMtime == old(lastMtime) && uiStarted == old(uiStarted)
    {
      if pending.Some? && pending.value <= now {
        pending := None;
        queries := queries + 1;
        QueryOnce(status, formula);
      }
    }
  }
}
