/**
 * The reducer of src/context/AppContext.tsx: the session state it owns, as a
 * class whose methods are the timing and list cases of `appReducer`, with
 * `recalculateAllExamEndTimes` and `addLogEntry`. The clock is the `now`
 * parameter of each event.
 */
module AppContext {
  import opened Wrappers
  import opened Exams

  datatype SessionMode = Examinations | Standardised

  datatype Page = SetupPage | ExamPage

  /** Session log entries, without the locale timestamp text the source prefixes. */
  datatype LogEntry =
    | SessionCommenced
    | SessionEnded
    | SessionPausedEntry(justification: string)
    | SessionResumedEntry
    | ExamPausedEntry(name: string, justification: string)
    | ExamResumedEntry(name: string)
    | ExamAbandonedEntry(name: string, justification: string)
    | ExamFinishedEntry(name: string)
    | RestStartedEntry(name: string)
    | RestEndedEntry(name: string)
    | ReaderWriterStartedEntry(name: string)
    | ReaderWriterEndedEntry(name: string)

  /** The log after `addLogEntry`: the entry is kept only while the session is live. */
  function Logged(log: seq<LogEntry>, live: bool, entry: LogEntry): (r: seq<LogEntry>)
    ensures log <= r
    ensures |r| == |log| + (if live then 1 else 0)
    ensures live ==> r[|log|] == entry
  {
    if live then log + [entry] else log
  }

  /** `if (examId)`: a missing or empty id addresses the whole session. */
  predicate IsExamTarget(examId: Option<string>) {
    examId.Some? && examId.value != ""
  }

  class AppState {
    var currentPage: Page
    var sessionMode: SessionMode
    var isLive: bool
    var isPaused: bool
    var pauseStartTime: Option<int>
    var pauseDurationTotal: int
    var autoStartTargetTime: Option<int>
    var exams: seq<Exam>
    var sessionLog: seq<LogEntry>

    /** The state the application starts from, and that a full reset restores. */
    ghost predicate IsInitial()
      reads this
    {
      && currentPage == SetupPage && sessionMode == Examinations
      && !isLive && !isPaused && pauseStartTime.None? && pauseDurationTotal == 0
      && autoStartTargetTime.None? && exams == [] && sessionLog == []
    }

    constructor ()
      ensures IsInitial()
    {
      currentPage, sessionMode := SetupPage, Examinations;
      isLive, isPaused, pauseStartTime, pauseDurationTotal := false, false, None, 0;
      autoStartTargetTime, exams, sessionLog := None, [], [];
    }

    /** The session-wide pause, banked and in progress, at `now`. */
    function GlobalPauseOffset(now: int): int
      reads this
    {
      Offset(pauseDurationTotal, isPaused, pauseStartTime, now)
    }

    /** `es` recalculated against the current session pause when `cond` holds, else `es` itself. */
    function RecalculatedWhen(cond: bool, es: seq<Exam>, now: int): seq<Exam>
      reads this
    {
      if cond then Recalculated(es, GlobalPauseOffset(now), now) else es
    }

    /** `recalculateAllExamEndTimes`. */
    method RecalculateAllExamEndTimes(now: int)
      modifies this`exams
      ensures exams == Recalculated(old(exams), GlobalPauseOffset(now), now)
    {
      var sessionStartTime := SessionStart(exams, now);
      var globalPauseDuration := pauseDurationTotal + (if isPaused then now - OrElse(pauseStartTime, now) else 0);
      var i := 0;
      while i < |exams|
        invariant 0 <= i <= |exams| == |old(exams)|
        invariant forall j :: 0 <= j < i ==> exams[j] == RecalculatedExam(old(exams)[j], sessionStartTime, globalPauseDuration, now)
        invariant forall j :: i <= j < |exams| ==> exams[j] == old(exams)[j]
      {
        var exam := exams[i];
        if exam.status != Abandoned && exam.status != Finished {
          var readMillis := exam.readMins * 60000;
          var writeMillis := (exam.writeHrs * 60 + exam.writeMins + exam.sp.extraTime) * 60000;
          var individualPauseDuration := exam.pauseDurationTotal
            + (if exam.isPaused then now - OrElse(exam.pauseStartTime, now) else 0);
          var restDuration := exam.sp.restTaken
            + (if exam.sp.onRest then now - OrElse(exam.sp.restStartTime, now) else 0);
          var readerWriterDuration := exam.sp.readerWriterTaken
            + (if exam.sp.onReaderWriter then now - OrElse(exam.sp.readerWriterStartTime, now) else 0);
          var totalOffset := globalPauseDuration + individualPauseDuration + restDuration + readerWriterDuration;
          var readEndTime := sessionStartTime + readMillis + totalOffset;
          var updated := exam.(startTime := Some(sessionStartTime),
                               readEndTime := Some(readEndTime),
                               writeEndTime := Some(readEndTime + writeMillis));
          assert readMillis == ReadMillis(exam) && writeMillis == WriteMillis(exam);
          assert totalOffset == TotalOffset(exam, globalPauseDuration, now);
          assert updated == RecalculatedExam(exam, sessionStartTime, globalPauseDuration, now);
          exams := exams[i := updated];
        }
        i := i + 1;
      }
      assert globalPauseDuration == GlobalPauseOffset(now);
    }

    /** `addLogEntry`. */
    method AddLogEntry(entry: LogEntry)
      modifies this`sessionLog
      ensures sessionLog == Logged(old(sessionLog), isLive, entry)
    {
      if isLive {
        sessionLog := sessionLog + [entry];
      }
    }

    /** `ADD_EXAM`: appended as given, with no recalculation. */
    method AddExam(exam: Exam)
      modifies this`exams
      ensures exams == old(exams) + [exam]
    {
      exams := exams + [exam];
    }

    /** `ADD_EXAMS`: the current list stays as a prefix; only payload exams with a new name follow it. */
    method AddExams(payload: seq<Exam>)
      modifies this`exams
      ensures exams == old(exams) + FreshByName(payload, old(exams))
    {
      var newExams := FreshByName(payload, exams);
      exams := exams + newExams;
    }

    /** `UPDATE_EXAM`: the first exam with the payload's id is replaced; live in examinations mode, times are recalculated. */
    method UpdateExam(exam: Exam, now: int)
      modifies this`exams
      ensures var k := FindExam(old(exams), exam.id);
              if k.None? then exams == old(exams)
              else exams == RecalculatedWhen(isLive && sessionMode == Examinations, old(exams)[k.value := exam], now)
    {
      var index := FindExam(exams, exam.id);
      if index.Some? {
        exams := exams[index.value := exam];
        if isLive && sessionMode == Examinations {
          RecalculateAllExamEndTimes(now);
        }
      }
    }

    /** `DELETE_EXAM`: every exam with that id is removed, with no recalculation. */
    method DeleteExam(id: string)
      modifies this`exams
      ensures exams == WithoutId(old(exams), id)
    {
      exams := WithoutId(exams, id);
    }

    /** `REORDER_EXAMS`: the two `splice` calls; live in examinations mode, times are recalculated. */
    method ReorderExams(oldIndex: nat, newIndex: nat, now: int)
      requires oldIndex < |exams|
      modifies this`exams
      ensures exams == RecalculatedWhen(isLive && sessionMode == Examinations, Moved(old(exams), oldIndex, newIndex), now)
    {
      var movedItem := exams[oldIndex];
      exams := exams[..oldIndex] + exams[oldIndex + 1..];
      var at := if newIndex <= |exams| then newIndex else |exams|;
      exams := exams[..at] + [movedItem] + exams[at..];
      if isLive && sessionMode == Examinations {
        RecalculateAllExamEndTimes(now);
      }
    }

    /**
     * `START_LIVE_SESSION`: live, unpaused, the log restarted with one entry;
     * in examinations mode the auto-start target is cleared, every exam is
     * stamped with `now` and the times are recalculated.
     */
    method StartLiveSession(now: int)
      modifies this`isLive, this`isPaused, this`currentPage, this`sessionLog, this`autoStartTargetTime, this`exams
      ensures isLive && !isPaused && currentPage == ExamPage
      ensures sessionLog == [SessionCommenced]
      ensures sessionMode == Examinations ==>
                && autoStartTargetTime.None?
                && exams == Recalculated(Stamped(old(exams), now), GlobalPauseOffset(now), now)
      ensures sessionMode != Examinations ==>
                autoStartTargetTime == old(autoStartTargetTime) && exams == old(exams)
    {
      isLive := true;
      isPaused := false;
      currentPage := ExamPage;
      sessionLog := [];
      AddLogEntry(SessionCommenced);
      if sessionMode == Examinations {
        var sessionStartTime := now;
        autoStartTargetTime := None;
        var i := 0;
        while i < |exams|
          invariant 0 <= i <= |exams| == |old(exams)|
          invariant forall j :: 0 <= j < i ==> exams[j] == old(exams)[j].(startTime := Some(sessionStartTime))
          invariant forall j :: i <= j < |exams| ==> exams[j] == old(exams)[j]
          modifies this`exams
        {
          exams := exams[i := exams[i].(startTime := Some(sessionStartTime))];
          i := i + 1;
        }
        assert exams == Stamped(old(exams), now);
        RecalculateAllExamEndTimes(now);
      }
    }

    /**
     * `END_SESSION`. The log (with a closing entry when live) goes to the export
     * and is returned here. Every exam is set running again with its flags and
     * banked provision time cleared; its pause total and pause start are kept,
     * as are the session's. With `shouldReset` the initial state is restored.
     */
    method EndSession(shouldReset: bool) returns (exported: Option<seq<LogEntry>>)
      modifies this
      ensures exported == if old(isLive) then Some(old(sessionLog) + [SessionEnded]) else None
      ensures shouldReset ==> IsInitial()
      ensures !shouldReset ==>
                && currentPage == SetupPage && !isLive && !isPaused
                && autoStartTargetTime.None? && sessionLog == []
                && sessionMode == old(sessionMode)
                && pauseStartTime == old(pauseStartTime) && pauseDurationTotal == old(pauseDurationTotal)
                && |exams| == |old(exams)|
                && forall i :: 0 <= i < |exams| ==> exams[i] == EndedExam(old(exams)[i])
    {
      exported := None;
      if isLive {
        AddLogEntry(SessionEnded);
        exported := Some(sessionLog);
      }
      currentPage := SetupPage;
      isLive := false;
      isPaused := false;
      autoStartTargetTime := None;
      sessionLog := [];
      var i := 0;
      while i < |exams|
        invariant 0 <= i <= |exams| == |old(exams)|
        invariant forall j :: 0 <= j < i ==> exams[j] == EndedExam(old(exams)[j])
        invariant forall j :: i <= j < |exams| ==> exams[j] == old(exams)[j]
        modifies this`exams
      {
        var exam := exams[i];
        exams := exams[i := exam.(status := Running, isPaused := false,
                                  sp := exam.sp.(onRest := false, restTaken := 0,
                                                 onReaderWriter := false, readerWriterTaken := 0))];
        i := i + 1;
      }
      if shouldReset {
        currentPage, sessionMode := SetupPage, Examinations;
        isLive, isPaused, pauseStartTime, pauseDurationTotal := false, false, None, 0;
        autoStartTargetTime, exams, sessionLog := None, [], [];
      }
    }

    /** `SET_AUTO_START_TIME`: the target is stored; nothing starts. */
    method SetAutoStartTime(target: int)
      modifies this`autoStartTargetTime
      ensures autoStartTargetTime == Some(target)
    {
      autoStartTargetTime := Some(target);
    }

    /** `CANCEL_AUTO_START`. */
    method CancelAutoStart()
      modifies this`autoStartTargetTime
      ensures autoStartTargetTime.None?
    {
      autoStartTargetTime := None;
    }

    /**
     * `PAUSE_SESSION`: pauses the first exam with the id, or the whole session
     * when no id is given. The pause start is overwritten even when already
     * paused, and nothing is recalculated. An unknown id changes nothing.
     */
    method PauseSession(examId: Option<string>, justification: string, now: int)
      modifies this`exams, this`isPaused, this`pauseStartTime, this`sessionLog
      ensures IsExamTarget(examId) ==>
                && isPaused == old(isPaused) && pauseStartTime == old(pauseStartTime)
                && var k := FindExam(old(exams), examId.value);
                   if k.None? then exams == old(exams) && sessionLog == old(sessionLog)
                   else && exams == old(exams)[k.value := Paused(old(exams)[k.value], now)]
                        && sessionLog == Logged(old(sessionLog), isLive, ExamPausedEntry(old(exams)[k.value].name, justification))
      ensures !IsExamTarget(examId) ==>
                && isPaused && pauseStartTime == Some(now) && exams == old(exams)
                && sessionLog == Logged(old(sessionLog), isLive, SessionPausedEntry(justification))
    {
      if examId.Some? && examId.value != "" {
        var k := FindExam(exams, examId.value);
        if k.Some? {
          var exam := exams[k.value];
          exams := exams[k.value := exam.(isPaused := true, pauseStartTime := Some(now))];
          AddLogEntry(ExamPausedEntry(exam.name, justification));
        }
      } else {
        isPaused := true;
        pauseStartTime := Some(now);
        AddLogEntry(SessionPausedEntry(justification));
      }
    }

    /**
     * `RESUME_SESSION`: when the target has a truthy pause start, the time
     * since it is added to the pause total and the pause is cleared; otherwise
     * the pause fields stay as they are. In examinations mode the times are
     * then recalculated, whether or not anything was resumed and whether or
     * not the session is live.
     */
    method ResumeSession(examId: Option<string>, now: int)
      modifies this`exams, this`isPaused, this`pauseStartTime, this`pauseDurationTotal, this`sessionLog
      ensures IsExamTarget(examId) ==>
                && isPaused == old(isPaused) && pauseStartTime == old(pauseStartTime)
                && pauseDurationTotal == old(pauseDurationTotal)
                && var k := FindExam(old(exams), examId.value);
                   if k.Some? && Truthy(old(exams)[k.value].pauseStartTime) then
                     && exams == RecalculatedWhen(sessionMode == Examinations,
                                                  old(exams)[k.value := Resumed(old(exams)[k.value], now)], now)
                     && sessionLog == Logged(old(sessionLog), isLive, ExamResumedEntry(old(exams)[k.value].name))
                   else
                     && exams == RecalculatedWhen(sessionMode == Examinations, old(exams), now)
                     && sessionLog == old(sessionLog)
      ensures !IsExamTarget(examId) ==>
                && exams == RecalculatedWhen(sessionMode == Examinations, old(exams), now)
                && if Truthy(old(pauseStartTime)) then
                     && pauseDurationTotal == old(pauseDurationTotal) + (now - old(pauseStartTime).value)
                     && !isPaused && pauseStartTime.None?
                     && sessionLog == Logged(old(sessionLog), isLive, SessionResumedEntry)
                   else
                     && isPaused == old(isPaused) && pauseStartTime == old(pauseStartTime)
                     && pauseDurationTotal == old(pauseDurationTotal) && sessionLog == old(sessionLog)
    {
      if examId.Some? && examId.value != "" {
        var k := FindExam(exams, examId.value);
        if k.Some? && Truthy(exams[k.value].pauseStartTime) {
          var exam := exams[k.value];
          exams := exams[k.value := exam.(pauseDurationTotal := exam.pauseDurationTotal + (now - exam.pauseStartTime.value),
                                          isPaused := false, pauseStartTime := None)];
          AddLogEntry(ExamResumedEntry(exam.name));
        }
      } else {
        if Truthy(pauseStartTime) {
          pauseDurationTotal := pauseDurationTotal + (now - pauseStartTime.value);
          isPaused := false;
          pauseStartTime := None;
          AddLogEntry(SessionResumedEntry);
        }
      }
      if sessionMode == Examinations {
        RecalculateAllExamEndTimes(now);
      }
    }

    /** `ABANDON_EXAM`: the first exam with the id becomes abandoned; in examinations mode times are recalculated. */
    method AbandonExam(examId: string, justification: string, now: int)
      modifies this`exams, this`sessionLog
      ensures var k := FindExam(old(exams), examId);
              if k.None? then exams == old(exams) && sessionLog == old(sessionLog)
              else && exams == RecalculatedWhen(sessionMode == Examinations,
                                                old(exams)[k.value := old(exams)[k.value].(status := Abandoned)], now)
                   && sessionLog == Logged(old(sessionLog), isLive, ExamAbandonedEntry(old(exams)[k.value].name, justification))
    {
      var k := FindExam(exams, examId);
      if k.Some? {
        var exam := exams[k.value];
        exams := exams[k.value := exam.(status := Abandoned)];
        AddLogEntry(ExamAbandonedEntry(exam.name, justification));
        if sessionMode == Examinations {
          RecalculateAllExamEndTimes(now);
        }
      }
    }

    /** `TOGGLE_REST_BREAK`: see `RestToggled`; in examinations mode times are recalculated. */
    method ToggleRestBreak(examId: string, now: int)
      modifies this`exams, this`sessionLog
      ensures var k := FindExam(old(exams), examId);
              if k.None? then exams == old(exams) && sessionLog == old(sessionLog)
              else var e := old(exams)[k.value];
                   && exams == RecalculatedWhen(sessionMode == Examinations, old(exams)[k.value := RestToggled(e, now)], now)
                   && sessionLog == Logged(old(sessionLog), isLive,
                                           if e.sp.onRest then RestEndedEntry(e.name) else RestStartedEntry(e.name))
    {
      var k := FindExam(exams, examId);
      if k.Some? {
        var exam := exams[k.value];
        if exam.sp.onRest {
          exams := exams[k.value := exam.(sp := exam.sp.(restTaken := exam.sp.restTaken + (now - OrElse(exam.sp.restStartTime, now)),
                                                         onRest := false, restStartTime := None))];
          AddLogEntry(RestEndedEntry(exam.name));
        } else {
          exams := exams[k.value := exam.(sp := exam.sp.(onRest := true, restStartTime := Some(now)))];
          AddLogEntry(RestStartedEntry(exam.name));
        }
        if sessionMode == Examinations {
          RecalculateAllExamEndTimes(now);
        }
      }
    }

    /** `TOGGLE_READER_WRITER`: see `ReaderWriterToggled`; in examinations mode times are recalculated. */
    method ToggleReaderWriter(examId: string, now: int)
      modifies this`exams, this`sessionLog
      ensures var k := FindExam(old(exams), examId);
              if k.None? then exams == old(exams) && sessionLog == old(sessionLog)
              else var e := old(exams)[k.value];
                   && exams == RecalculatedWhen(sessionMode == Examinations, old(exams)[k.value := ReaderWriterToggled(e, now)], now)
                   && sessionLog == Logged(old(sessionLog), isLive,
                                           if e.sp.onReaderWriter then ReaderWriterEndedEntry(e.name) else ReaderWriterStartedEntry(e.name))
    {
      var k := FindExam(exams, examId);
      if k.Some? {
        var exam := exams[k.value];
        if exam.sp.onReaderWriter {
          exams := exams[k.value := exam.(sp := exam.sp.(readerWriterTaken := exam.sp.readerWriterTaken + (now - OrElse(exam.sp.readerWriterStartTime, now)),
                                                         onReaderWriter := false, readerWriterStartTime := None))];
          AddLogEntry(ReaderWriterEndedEntry(exam.name));
        } else {
          exams := exams[k.value := exam.(sp := exam.sp.(onReaderWriter := true, readerWriterStartTime := Some(now)))];
          AddLogEntry(ReaderWriterStartedEntry(exam.name));
        }
        if sessionMode == Examinations {
          RecalculateAllExamEndTimes(now);
        }
      }
    }

    /** `FINISH_EXAM`: see `FinishedExams`; no recalculation. */
    method FinishExam(examId: string)
      modifies this`exams, this`sessionLog
      ensures exams == FinishedExams(old(exams), examId)
      ensures var k := FinishTarget(old(exams), examId);
              sessionLog == if k.None? then old(sessionLog)
                            else Logged(old(sessionLog), isLive, ExamFinishedEntry(old(exams)[k.value].name))
    {
      var k := FindExam(exams, examId);
      if k.Some? && exams[k.value].status != Finished {
        var exam := exams[k.value];
        exams := exams[k.value := exam.(status := Finished)];
        AddLogEntry(ExamFinishedEntry(exam.name));
      }
    }
  }
}
