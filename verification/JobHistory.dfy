// The history of one service job: the transition log replays to it, every timestamp column is a
// closed form of it, and pause accounting is exact up to whole-second truncation.
module JobHistory {
  import opened Common
  import opened StateMachine
  import opened Workshop

  // One accepted transition and the clock reading it used.
  datatype Hop = Hop(to: Status, now: int)

  // The accepted transitions of service `sid` along a run, told by the answers alone.
  ghost function History(t: Tables, es: seq<Event>, sid: nat): seq<Hop> {
    if es == [] then []
    else
      var front, e := es[..|es| - 1], es[|es| - 1];
      History(t, front, sid)
      + if e.Move? && e.sid == sid && Apply(Run(t, front), e).1.Done? then [Hop(e.to, e.now)] else []
  }

  function Timeline(log: seq<LogRow>, sid: nat): seq<LogRow> {
    if log == [] then []
    else
      var last := log[|log| - 1];
      Timeline(log[..|log| - 1], sid) + if last.serviceId == sid then [last] else []
  }

  // ---- reading a history -----------------------------------------------------------

  function StatusAfter(h: seq<Hop>): Status {
    if h == [] then Waiting else h[|h| - 1].to
  }

  // Every hop follows an edge of the status graph, starting from waiting.
  ghost predicate Legal(h: seq<Hop>) {
    forall i | 0 <= i < |h| :: h[i].to in Allowed(StatusAfter(h[..i]))
  }

  // The pause that begins at hop `i` ended by resuming or completing.
  predicate Closes(h: seq<Hop>, i: int) {
    0 <= i < |h| - 1 && h[i].to == Paused && h[i + 1].to != Cancelled
  }

  // Whole seconds of every closed pause, each floored and never negative.
  function PausedSeconds(h: seq<Hop>): int {
    if |h| < 2 then 0
    else
      PausedSeconds(h[..|h| - 1])
      + if Closes(h, |h| - 2) then Max(0, (h[|h| - 1].now - h[|h| - 2].now) / SECOND) else 0
  }

  // The true length of every closed pause.
  function PausedMicros(h: seq<Hop>): int {
    if |h| < 2 then 0
    else PausedMicros(h[..|h| - 1]) + if Closes(h, |h| - 2) then h[|h| - 1].now - h[|h| - 2].now else 0
  }

  function ClosedPauses(h: seq<Hop>): nat {
    if |h| < 2 then 0 else ClosedPauses(h[..|h| - 1]) + if Closes(h, |h| - 2) then 1 else 0
  }

  // Where each timestamp column comes from.
  function StartOf(h: seq<Hop>): Option<int> {
    if h != [] && h[0].to == InProgress then Some(h[0].now) else None
  }

  function PauseOf(h: seq<Hop>): Option<int> {
    if StatusAfter(h) == Paused then Some(h[|h| - 1].now)
    else if StatusAfter(h) == Cancelled && |h| >= 2 && h[|h| - 2].to == Paused then Some(h[|h| - 2].now)
    else None
  }

  function EndOf(h: seq<Hop>, status: Status): Option<int> {
    if h != [] && h[|h| - 1].to == status then Some(h[|h| - 1].now) else None
  }

  ghost predicate RowFollows(s: Service, h: seq<Hop>) {
    && s.status == StatusAfter(h)
    && s.startedAt == StartOf(h)
    && s.pausedAt == PauseOf(h)
    && s.pausedElapsed == PausedSeconds(h)
    && s.completedAt == EndOf(h, Completed)
    && s.cancelledAt == EndOf(h, Cancelled)
  }

  // The log rows of a job: its opening, then one row per hop, each starting where the last ended.
  ghost predicate LogFollows(rows: seq<LogRow>, h: seq<Hop>) {
    && |rows| == |h| + 1
    && rows[0].fromStatus == None && rows[0].toStatus == Waiting
    && forall i | 0 <= i < |h| ::
         rows[i + 1].fromStatus == Some(rows[i].toStatus) && rows[i + 1].toStatus == h[i].to
  }

  // ---- one hop ------------------------------------------------------------------------

  lemma LegalExtends(h: seq<Hop>, hop: Hop)
    requires Legal(h) && hop.to in Allowed(StatusAfter(h))
    ensures Legal(h + [hop])
  {
    var h' := h + [hop];
    forall i | 0 <= i < |h'| ensures h'[i].to in Allowed(StatusAfter(h'[..i])) {
      assert h'[..i] == if i < |h| then h[..i] else h;
    }
  }

  lemma TruncationIsFloorFromZero(micros: int)
    ensures Max(0, WholeSeconds(micros)) == Max(0, micros / SECOND)
  {}

  // How each closed form grows with one hop.
  lemma ClosedFormsGrow(h: seq<Hop>, hop: Hop)
    ensures var h', wasPaused := h + [hop], StatusAfter(h) == Paused;
            && StatusAfter(h') == hop.to
            && (h != [] ==> StartOf(h') == StartOf(h))
            && PauseOf(h') == (if hop.to == Paused then Some(hop.now)
                               else if hop.to == Cancelled && wasPaused then Some(h[|h| - 1].now) else None)
            && PausedSeconds(h') == PausedSeconds(h)
                                    + if wasPaused && hop.to != Cancelled then Max(0, (hop.now - h[|h| - 1].now) / SECOND) else 0
  {
    var h' := h + [hop];
    assert h'[..|h'| - 1] == h;
    if h != [] {
      assert h'[0] == h[0] && h'[|h'| - 2] == h[|h| - 1];
    }
  }

  // A job is waiting exactly until its first hop.
  lemma WaitingExactlyBeforeHops(h: seq<Hop>)
    requires Legal(h)
    ensures StatusAfter(h) == Waiting <==> h == []
  {
    if h != [] {
      assert h[|h| - 1].to in Allowed(StatusAfter(h[..|h| - 1]));
    }
  }

  lemma RowFollowsHop(s: Service, h: seq<Hop>, to: Status, reason: Option<string>, now: int)
    requires Legal(h) && RowFollows(s, h) && Validate(s.status, to, reason) == Accepted
    ensures Legal(h + [Hop(to, now)]) && RowFollows(Moved(s, to, reason, now), h + [Hop(to, now)])
  {
    LegalExtends(h, Hop(to, now));
    ClosedFormsGrow(h, Hop(to, now));
    WaitingExactlyBeforeHops(h);
    if s.pausedAt.Some? {
      TruncationIsFloorFromZero(now - s.pausedAt.value);
    }
  }

  // ---- every run --------------------------------------------------------------------------

  ghost predicate JobFollows(t: Tables, sid: nat, h: seq<Hop>) {
    && sid < |t.services|
    && Legal(h)
    && RowFollows(t.services[sid], h)
    && LogFollows(Timeline(t.log, sid), h)
  }

  lemma {:induction false} TimelineOfNone(log: seq<LogRow>, sid: nat)
    requires forall i | 0 <= i < |log| :: log[i].serviceId != sid
    ensures Timeline(log, sid) == []
  {
    if log != [] {
      TimelineOfNone(log[..|log| - 1], sid);
    }
  }

  lemma TimelineGrows(log: seq<LogRow>, row: LogRow, sid: nat)
    ensures Timeline(log + [row], sid) == Timeline(log, sid) + if row.serviceId == sid then [row] else []
  {
    assert (log + [row])[..|log + [row]| - 1] == log;
  }

  ghost predicate Hops(t: Tables, e: Event, sid: nat) {
    e.Move? && e.sid == sid && Apply(t, e).1.Done?
  }

  ghost predicate SameTimes(s: Service, s': Service) {
    s' == s.(mechanicId := s'.mechanicId, nextRecommended := s'.nextRecommended, notes := s'.notes)
  }

  // What one event can do to an existing job and its log.
  lemma StepOnJob(t: Tables, e: Event, sid: nat)
    requires sid < |t.services|
    ensures sid < |Step(t, e).services|
    ensures var s, s' := t.services[sid], Step(t, e).services[sid];
            if Hops(t, e, sid) then
              Validate(s.status, e.to, e.reason) == Accepted && s' == Moved(s, e.to, e.reason, e.now)
            else SameTimes(s, s') && (s.status in TERMINAL ==> s' == s)
    ensures Hops(t, e, sid) ==>
              t.services[sid].status !in TERMINAL
              && Step(t, e).log == t.log + [LogRow(sid, Some(t.services[sid].status), e.to, e.userId, e.reason)]
    ensures !Hops(t, e, sid) ==>
              Step(t, e).log == t.log
              || exists row: LogRow :: row.serviceId != sid && Step(t, e).log == t.log + [row]
  {
    var t' := Step(t, e);
    if t'.log != t.log {
      assert t'.log == t.log + [t'.log[|t.log|]];
    }
  }

  lemma TimelineStep(t: Tables, e: Event, sid: nat)
    requires sid < |t.services|
    ensures Timeline(Step(t, e).log, sid)
         == Timeline(t.log, sid)
            + if Hops(t, e, sid) then [LogRow(sid, Some(t.services[sid].status), e.to, e.userId, e.reason)] else []
  {
    StepOnJob(t, e, sid);
    if Step(t, e).log != t.log {
      TimelineGrows(t.log, Step(t, e).log[|t.log|], sid);
    }
  }

  lemma LogFollowsHop(rows: seq<LogRow>, row: LogRow, h: seq<Hop>, hop: Hop)
    requires LogFollows(rows, h) && row.fromStatus == Some(StatusAfter(h)) && row.toStatus == hop.to
    ensures LogFollows(rows + [row], h + [hop])
  {
    assert h != [] ==> rows[|h| - 1 + 1].toStatus == h[|h| - 1].to;
    assert rows[|h|].toStatus == StatusAfter(h);
  }

  lemma JobFollowsStep(t: Tables, e: Event, sid: nat, h: seq<Hop>)
    requires JobFollows(t, sid, h)
    ensures JobFollows(Step(t, e), sid, if Hops(t, e, sid) then h + [Hop(e.to, e.now)] else h)
  {
    StepOnJob(t, e, sid);
    TimelineStep(t, e, sid);
    if Hops(t, e, sid) {
      var s := t.services[sid];
      RowFollowsHop(s, h, e.to, e.reason, e.now);
      LogFollowsHop(Timeline(t.log, sid), LogRow(sid, Some(s.status), e.to, e.userId, e.reason), h, Hop(e.to, e.now));
    }
  }

  lemma JobFollowsOpening(t: Tables, e: Event, sid: nat)
    requires ForeignKeys(t) && |t.services| <= sid < |Step(t, e).services|
    ensures JobFollows(Step(t, e), sid, []) && !e.Move?
  {
    var t' := Step(t, e);
    TimelineOfNone(t.log, sid);
    TimelineGrows(t.log, t'.log[|t.log|], sid);
  }

  // For every job opened in a run and every later state of that run, row and log are exactly what
  // the accepted transitions say. No hop is missed, invented or reordered.
  lemma {:induction false} RowAndLogFollowHistory(t: Tables, es: seq<Event>, sid: nat)
    requires ForeignKeys(t) && |t.services| <= sid < |Run(t, es).services|
    ensures JobFollows(Run(t, es), sid, History(t, es, sid))
  {
    var front, e := es[..|es| - 1], es[|es| - 1];
    var before, h := Run(t, front), History(t, front, sid);
    RunKeepsForeignKeys(t, front);
    HistoryStep(t, es, sid);
    if sid < |before.services| {
      RowAndLogFollowHistory(t, front, sid);
      JobFollowsStep(before, e, sid, h);
    } else {
      JobFollowsOpening(before, e, sid);
      HistoryOfUnopened(t, front, sid);
    }
  }

  lemma HistoryStep(t: Tables, es: seq<Event>, sid: nat)
    requires es != []
    ensures var before, e, h := Run(t, es[..|es| - 1]), es[|es| - 1], History(t, es[..|es| - 1], sid);
            && Run(t, es) == Step(before, e)
            && History(t, es, sid) == if Hops(before, e, sid) then h + [Hop(e.to, e.now)] else h
  {}

  lemma {:induction false} HistoryOfUnopened(t: Tables, es: seq<Event>, sid: nat)
    requires ForeignKeys(t) && |Run(t, es).services| <= sid
    ensures History(t, es, sid) == []
  {
    if es != [] {
      var front := es[..|es| - 1];
      RunKeepsForeignKeys(t, front);
      StepKeepsForeignKeys(Run(t, front), es[|es| - 1]);
      HistoryOfUnopened(t, front, sid);
    }
  }

  // ---- what the log says ------------------------------------------------------------------

  ghost predicate Replays(rows: seq<LogRow>, status: Status) {
    && rows != []
    && rows[0].fromStatus == None && rows[0].toStatus == Waiting
    && (forall i | 0 < i < |rows| ::
          rows[i].fromStatus == Some(rows[i - 1].toStatus) && rows[i].toStatus in Allowed(rows[i - 1].toStatus))
    && (forall i | 0 <= i < |rows| - 1 :: rows[i].toStatus !in TERMINAL)
    && rows[|rows| - 1].toStatus == status
  }

  // Rows that enter the paused status minus rows that leave it.
  function OpenPauses(rows: seq<LogRow>): int {
    if rows == [] then 0
    else
      var row := rows[|rows| - 1];
      OpenPauses(rows[..|rows| - 1])
      + (if row.toStatus == Paused then 1 else 0) - (if row.fromStatus == Some(Paused) then 1 else 0)
  }

  lemma {:induction false} OpenPausesFollowStatus(rows: seq<LogRow>, status: Status)
    requires Replays(rows, status)
    ensures OpenPauses(rows) == if status == Paused then 1 else 0
  {
    var front := rows[..|rows| - 1];
    if front != [] {
      OpenPausesFollowStatus(front, front[|front| - 1].toStatus);
    } else {
      assert OpenPauses(front) == 0;
    }
  }

  lemma FollowingLogReplays(rows: seq<LogRow>, h: seq<Hop>)
    requires Legal(h) && LogFollows(rows, h)
    ensures Replays(rows, StatusAfter(h))
  {
    forall i | 0 < i < |rows|
      ensures rows[i].toStatus in Allowed(rows[i - 1].toStatus)
    {
      assert h[i - 1].to in Allowed(StatusAfter(h[..i - 1]));
      assert i > 1 ==> rows[i - 2 + 1].toStatus == h[i - 2].to;
      assert rows[i - 1 + 1].toStatus == h[i - 1].to;
    }
    forall i | 0 <= i < |rows| - 1
      ensures rows[i].toStatus !in TERMINAL
    {
      assert rows[i + 1].toStatus in Allowed(rows[i].toStatus);
    }
  }

  // The log of every job starts with (none -> waiting), chains along allowed edges, ends in the
  // job's current status, holds a terminal status in its last row only, and balances its pauses.
  lemma LogReplaysToStatus(t: Tables, es: seq<Event>, sid: nat)
    requires ForeignKeys(t) && |t.services| <= sid < |Run(t, es).services|
    ensures var end := Run(t, es);
            && Replays(Timeline(end.log, sid), end.services[sid].status)
            && OpenPauses(Timeline(end.log, sid)) == if end.services[sid].status == Paused then 1 else 0
  {
    RowAndLogFollowHistory(t, es, sid);
    var end := Run(t, es);
    FollowingLogReplays(Timeline(end.log, sid), History(t, es, sid));
    OpenPausesFollowStatus(Timeline(end.log, sid), end.services[sid].status);
  }

  // ---- the clock ---------------------------------------------------------------------------

  ghost predicate Nondecreasing(h: seq<Hop>) {
    forall i, j | 0 <= i < j < |h| :: h[i].now <= h[j].now
  }

  // The transition requests of a run read a clock that never steps back.
  ghost predicate ClockRuns(es: seq<Event>) {
    forall i, j | 0 <= i < j < |es| && es[i].Move? && es[j].Move? :: es[i].now <= es[j].now
  }

  lemma {:induction false} HistoryReadsTheClock(t: Tables, es: seq<Event>, sid: nat)
    requires ClockRuns(es)
    ensures Nondecreasing(History(t, es, sid))
    ensures forall k | 0 <= k < |History(t, es, sid)| ::
              exists i | 0 <= i < |es| :: es[i].Move? && es[i].now == History(t, es, sid)[k].now
  {
    if es != [] {
      var front, h := es[..|es| - 1], History(t, es[..|es| - 1], sid);
      HistoryReadsTheClock(t, front, sid);
      forall k | 0 <= k < |h|
        ensures exists i | 0 <= i < |es| - 1 :: es[i].Move? && es[i].now == h[k].now
      {
        var i :| 0 <= i < |front| && front[i].Move? && front[i].now == h[k].now;
        assert es[i] == front[i];
      }
    }
  }

  // ---- pause accounting ----------------------------------------------------------------------

  // On a clock that never steps back, truncation loses less than a second per closed pause and
  // never adds anything.
  lemma {:induction false} TruncationLosesUnderASecondPerPause(h: seq<Hop>)
    requires Nondecreasing(h)
    ensures 0 <= PausedMicros(h) - SECOND * PausedSeconds(h) <= ClosedPauses(h) * (SECOND - 1)
  {
    if |h| >= 2 {
      TruncationLosesUnderASecondPerPause(h[..|h| - 1]);
    }
  }

  // Closed pauses are disjoint and lie between the first hop and the last.
  lemma {:induction false} PausesFitInside(h: seq<Hop>)
    requires Nondecreasing(h) && h != []
    ensures 0 <= PausedMicros(h) <= h[|h| - 1].now - h[0].now
  {
    if |h| >= 2 {
      PausesFitInside(h[..|h| - 1]);
    }
  }

  // `paused_elapsed_s` against the true paused time, in every state of every run.
  lemma PauseAccountingIsExactUpToTruncation(t: Tables, es: seq<Event>, sid: nat)
    requires ForeignKeys(t) && |t.services| <= sid < |Run(t, es).services| && ClockRuns(es)
    ensures var h, s := History(t, es, sid), Run(t, es).services[sid];
            && s.pausedElapsed == PausedSeconds(h)
            && 0 <= PausedMicros(h) - SECOND * s.pausedElapsed <= ClosedPauses(h) * (SECOND - 1)
  {
    RowAndLogFollowHistory(t, es, sid);
    HistoryReadsTheClock(t, es, sid);
    TruncationLosesUnderASecondPerPause(History(t, es, sid));
  }

  lemma CompletedHistory(h: seq<Hop>)
    requires Legal(h) && Nondecreasing(h) && StatusAfter(h) == Completed
    ensures StartOf(h).Some? && EndOf(h, Completed).Some? && PauseOf(h).None?
    ensures 0 <= SECOND * PausedSeconds(h) <= EndOf(h, Completed).value - StartOf(h).value
  {
    TruncationLosesUnderASecondPerPause(h);
    PausesFitInside(h);
    PausedSecondsNonNegative(h);
    assert h[0].to in Allowed(StatusAfter(h[..0]));
    if |h| > 1 {
      assert h[1].to in Allowed(StatusAfter(h[..1]));
    }
  }

  // The net work time of a completed job, end minus start minus pauses, is never negative.
  lemma NetWorkTimeIsNeverNegative(t: Tables, es: seq<Event>, sid: nat)
    requires ForeignKeys(t) && |t.services| <= sid < |Run(t, es).services| && ClockRuns(es)
    requires Run(t, es).services[sid].status == Completed
    ensures var s := Run(t, es).services[sid];
            && s.startedAt.Some? && s.completedAt.Some? && s.pausedAt.None?
            && 0 <= SECOND * s.pausedElapsed <= s.completedAt.value - s.startedAt.value
  {
    RowAndLogFollowHistory(t, es, sid);
    HistoryReadsTheClock(t, es, sid);
    CompletedHistory(History(t, es, sid));
  }

  lemma {:induction false} PausedSecondsNonNegative(h: seq<Hop>)
    ensures 0 <= PausedSeconds(h)
  {
    if |h| >= 2 {
      PausedSecondsNonNegative(h[..|h| - 1]);
    }
  }

  // One job, opened and completed by five requests; the last reads a clock that stepped back.
  const STEPPED: seq<Event> := [
    Open(IntakeForm(0, 1, 0, 0, None, None, None, []), true, true, 0),
    Move(0, 1, true, InProgress, None, 0),
    Move(0, 1, true, Paused, None, 0),
    Move(0, 1, true, InProgress, None, 10 * SECOND),
    Move(0, 1, true, Completed, None, 5 * SECOND)]

  const ONE_CAR: Tables := Tables([Car(1, 0)], [], [], [], [])

  lemma SteppedIsPaused()
    ensures var t := Run(ONE_CAR, STEPPED[..3]);
            |t.services| == 1 && var s := t.services[0];
            s.status == Paused && s.startedAt == Some(0) && s.pausedAt == Some(0) && s.pausedElapsed == 0
  {
    assert STEPPED[..0] == [];
    RunOfOneMore(ONE_CAR, STEPPED, 0);
    RunOfOneMore(ONE_CAR, STEPPED, 1);
    RunOfOneMore(ONE_CAR, STEPPED, 2);
  }

  lemma SteppedIsResumed()
    ensures var t := Run(ONE_CAR, STEPPED[..4]);
            |t.services| == 1 && var s := t.services[0];
            s.status == InProgress && s.startedAt == Some(0) && s.pausedElapsed == 10
  {
    SteppedIsPaused();
    RunOfOneMore(ONE_CAR, STEPPED, 3);
    assert WholeSeconds(10 * SECOND) == 10;
  }

  // Without the clock assumption the claim fails: the job records ten seconds of pause in five of
  // work.
  lemma SteppedClockBreaksNetWorkTime()
    ensures ForeignKeys(ONE_CAR) && !ClockRuns(STEPPED)
    ensures var services := Run(ONE_CAR, STEPPED).services;
            && |services| == 1 && services[0].status == Completed
            && services[0].startedAt.Some? && services[0].completedAt.Some?
            && SECOND * services[0].pausedElapsed > services[0].completedAt.value - services[0].startedAt.value
  {
    SteppedIsResumed();
    RunOfOneMore(ONE_CAR, STEPPED, 4);
    assert STEPPED[..5] == STEPPED;
    assert STEPPED[4].now < STEPPED[3].now;
  }

  lemma RunOfOneMore(t: Tables, es: seq<Event>, i: nat)
    requires i < |es|
    ensures Run(t, es[..i + 1]) == Step(Run(t, es[..i]), es[i])
  {
    assert es[..i + 1][..i] == es[..i];
  }

  // ---- the timestamp columns -------------------------------------------------------------------

  // `paused_at` is set exactly while the job is paused or after it was cancelled out of a pause.
  lemma PausedAtSetExactlyWhen(t: Tables, es: seq<Event>, sid: nat)
    requires ForeignKeys(t) && |t.services| <= sid < |Run(t, es).services|
    ensures var s, rows := Run(t, es).services[sid], Timeline(Run(t, es).log, sid);
            s.pausedAt.Some? <==>
              s.status == Paused
              || (s.status == Cancelled && rows != [] && rows[|rows| - 1].fromStatus == Some(Paused))
  {
    RowAndLogFollowHistory(t, es, sid);
    var h, rows := History(t, es, sid), Timeline(Run(t, es).log, sid);
    if |h| >= 2 {
      assert rows[|h|].fromStatus == Some(rows[|h| - 1].toStatus) && rows[|h| - 2 + 1].toStatus == h[|h| - 2].to;
    }
  }

  // `started_at` is written once: a start seen in any state is the start in every later one.
  lemma {:induction false} StartIsWrittenOnce(t: Tables, es: seq<Event>, sid: nat)
    requires sid < |t.services| && t.services[sid].startedAt.Some?
    ensures sid < |Run(t, es).services|
    ensures Run(t, es).services[sid].startedAt == t.services[sid].startedAt
  {
    if es != [] {
      StartIsWrittenOnce(t, es[..|es| - 1], sid);
      StepOnJob(Run(t, es[..|es| - 1]), es[|es| - 1], sid);
    }
  }

  // ---- reasons ---------------------------------------------------------------------------------

  // The text given with the latest pause, if any was.
  function PauseReasonOf(rows: seq<LogRow>): Option<string> {
    if rows == [] then None
    else
      var last := rows[|rows| - 1];
      if last.toStatus != Paused then PauseReasonOf(rows[..|rows| - 1])
      else if Stripped(last.reason) == "" then None else Some(Stripped(last.reason))
  }

  ghost predicate ReasonsFollow(s: Service, rows: seq<LogRow>) {
    && rows != [] && rows[|rows| - 1].toStatus == s.status
    && s.pauseReason == PauseReasonOf(rows)
    && s.cancelReason == (if s.status == Cancelled then Some(Stripped(rows[|rows| - 1].reason)) else None)
    && (s.status == Cancelled ==> rows[|rows| - 1].reason.Some? && HasText(rows[|rows| - 1].reason.value))
  }

  lemma ReasonsFollowStep(t: Tables, e: Event, sid: nat)
    requires sid < |t.services| && ReasonsFollow(t.services[sid], Timeline(t.log, sid))
    ensures sid < |Step(t, e).services|
    ensures ReasonsFollow(Step(t, e).services[sid], Timeline(Step(t, e).log, sid))
  {
    StepOnJob(t, e, sid);
    TimelineStep(t, e, sid);
    var rows, rows' := Timeline(t.log, sid), Timeline(Step(t, e).log, sid);
    if Hops(t, e, sid) {
      assert rows'[..|rows'| - 1] == rows;
      CancelNeedsText(t.services[sid].status, e.reason);
    } else {
      assert rows' == rows;
    }
  }

  lemma OpeningGivesNoReason(s: Service, row: LogRow)
    requires s.status == Waiting && s.pauseReason == None && s.cancelReason == None && row.toStatus == Waiting
    ensures ReasonsFollow(s, [row])
  {
    assert [row][..0] == [] && PauseReasonOf([]) == None;
  }

  lemma ReasonsFollowOpening(t: Tables, e: Event, sid: nat)
    requires ForeignKeys(t) && |t.services| <= sid < |Step(t, e).services|
    ensures ReasonsFollow(Step(t, e).services[sid], Timeline(Step(t, e).log, sid))
  {
    assert e.Open? && Step(t, e).services[sid] == OpenedService(e.form, e.now);
    var row := Step(t, e).log[|t.log|];
    TimelineOfNone(t.log, sid);
    TimelineGrows(t.log, row, sid);
    OpeningGivesNoReason(Step(t, e).services[sid], row);
  }

  // In every reachable state a job's reasons are those its log gives: of the latest pause and of
  // the cancellation, stripped; every cancelled job has one with text in it, and no other has any.
  lemma {:induction false} ReasonsFollowTheLog(t: Tables, es: seq<Event>, sid: nat)
    requires ForeignKeys(t) && |t.services| <= sid < |Run(t, es).services|
    ensures ReasonsFollow(Run(t, es).services[sid], Timeline(Run(t, es).log, sid))
  {
    var front, e := es[..|es| - 1], es[|es| - 1];
    if sid < |Run(t, front).services| {
      ReasonsFollowTheLog(t, front, sid);
      ReasonsFollowStep(Run(t, front), e, sid);
    } else {
      RunKeepsForeignKeys(t, front);
      ReasonsFollowOpening(Run(t, front), e, sid);
    }
  }

  // A completed or cancelled job is frozen: nothing ever changes its row or its log again.
  lemma {:induction false} TerminalJobsAreFrozen(t: Tables, es: seq<Event>, sid: nat)
    requires ForeignKeys(t) && sid < |t.services| && t.services[sid].status in TERMINAL
    ensures sid < |Run(t, es).services| && Run(t, es).services[sid] == t.services[sid]
    ensures Timeline(Run(t, es).log, sid) == Timeline(t.log, sid)
  {
    if es != [] {
      var front, e := es[..|es| - 1], es[|es| - 1];
      TerminalJobsAreFrozen(t, front, sid);
      StepOnJob(Run(t, front), e, sid);
      TimelineStep(Run(t, front), e, sid);
    }
  }
}
