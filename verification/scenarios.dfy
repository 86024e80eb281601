/**
 * Worked sessions driven only through the contracts of `AppState`: they show
 * that the method specifications pin the end times down to the minute.
 */
module Scenarios {
  import opened Wrappers
  import opened Exams
  import opened AppContext

  function Minutes(n: int): int {
    n * MillisPerMinute
  }

  function PlainExam(id: string, name: string, readMins: int, writeHrs: int, writeMins: int): Exam {
    Exam(id, name, readMins, writeHrs, writeMins, "", false, "",
         Provisions("", false, 0, 0, 0, false, None, 0, 0, false, None),
         Running, false, None, 0, None, None, None)
  }

  /** The exam of the pause scenarios: ten minutes' reading and an hour's writing, started at `t`. */
  function MathsStarted(t: int): Exam {
    PlainExam("e1", "Mathematics", 10, 1, 0).(
      startTime := Some(t), readEndTime := Some(t + Minutes(10)), writeEndTime := Some(t + Minutes(70)))
  }

  /** Going live at `t` gives the exam its start and both end times. */
  method ExamStartScenario(t: int)
    requires t > 0
  {
    var s := new AppState();
    var e := PlainExam("e1", "Mathematics", 10, 1, 0);
    s.AddExam(e);
    assert s.exams == [e];
    s.StartLiveSession(t);
    assert s.GlobalPauseOffset(t) == 0 && Stamped([e], t) == [e.(startTime := Some(t))];
    assert s.exams == [MathsStarted(t)];
  }

  /** Pausing the started exam a minute in records the pause and moves nothing yet. */
  method ExamPauseScenario(t: int)
    requires t > 0
  {
    var s := new AppState();
    s.AddExam(MathsStarted(t));
    assert s.exams == [MathsStarted(t)] && FindExam(s.exams, "e1") == Some(0);
    assert IsExamTarget(Some("e1"));
    s.PauseSession(Some("e1"), "Fire alarm", t + Minutes(1));
    assert s.exams == [MathsStarted(t).(isPaused := true, pauseStartTime := Some(t + Minutes(1)))];
    assert s.exams[0].readEndTime == Some(t + Minutes(10));
  }

  /** The same exam, paused at one minute, is resumed at six: both end times move five minutes later. */
  method ExamResumeScenario(t: int)
    requires t > 0
  {
    var s := new AppState();
    var paused := MathsStarted(t).(isPaused := true, pauseStartTime := Some(t + Minutes(1)));
    s.AddExam(paused);
    assert s.exams == [paused] && FindExam(s.exams, "e1") == Some(0);
    s.ResumeSession(Some("e1"), t + Minutes(6));
    var resumed := paused.(isPaused := false, pauseStartTime := None, pauseDurationTotal := Minutes(5));
    assert s.exams == Recalculated([resumed], 0, t + Minutes(6));
    assert s.exams[0].readEndTime == Some(t + Minutes(15));
    assert s.exams[0].writeEndTime == Some(t + Minutes(75));
  }

  /** English (10 min, 2 h) and History (5 min, 1 h 30), as stamped and timed when going live at `t`. */
  function EnglishStarted(t: int): Exam {
    PlainExam("e1", "English", 10, 2, 0).(startTime := Some(t),
      readEndTime := Some(t + Minutes(10)), writeEndTime := Some(t + Minutes(130)))
  }

  function HistoryStarted(t: int): Exam {
    PlainExam("e2", "History", 5, 1, 30).(startTime := Some(t),
      readEndTime := Some(t + Minutes(5)), writeEndTime := Some(t + Minutes(95)))
  }

  /** Going live at `t` with two exams already timed from `t` keeps their times and logs the start. */
  method LivePair(t: int) returns (s: AppState)
    requires t > 0
    ensures fresh(s)
    ensures s.exams == [EnglishStarted(t), HistoryStarted(t)]
    ensures s.isLive && s.sessionLog == [SessionCommenced] && s.sessionMode == Examinations
    ensures !s.isPaused && s.pauseDurationTotal == 0
  {
    s := new AppState();
    var english, history := EnglishStarted(t), HistoryStarted(t);
    s.AddExam(english);
    s.AddExam(history);
    assert s.exams == [english, history];
    s.StartLiveSession(t);
    assert s.GlobalPauseOffset(t) == 0 && Stamped([english, history], t) == [english, history];
  }

  /** In a live session the second exam is abandoned at three minutes: both keep their times and the log records it. */
  method AbandonScenario(t: int)
    requires t > 0
  {
    var s := LivePair(t);
    var english, history := EnglishStarted(t), HistoryStarted(t);
    assert FindExam(s.exams, "e2") == Some(1);
    assert s.GlobalPauseOffset(t + Minutes(3)) == 0;
    s.AbandonExam("e2", "Student unwell", t + Minutes(3));
    var gone := history.(status := Abandoned);
    assert [english, history][1 := gone] == [english, gone];
    assert s.exams == Recalculated([english, gone], 0, t + Minutes(3));
    assert s.exams == [english, gone];
    assert s.sessionLog == [SessionCommenced, ExamAbandonedEntry("History", "Student unwell")];
  }

  /**
   * A running exam started at `t` beside one abandoned earlier; the session
   * is paused from five to eight minutes. The running exam ends three minutes
   * later, the abandoned one keeps its times.
   */
  method GlobalPauseScenario(t: int)
    requires t > 0
  {
    var s := new AppState();
    var running := PlainExam("e1", "English", 10, 2, 0).(startTime := Some(t),
                     readEndTime := Some(t + Minutes(10)), writeEndTime := Some(t + Minutes(130)));
    var gone := PlainExam("e2", "History", 5, 1, 30).(status := Abandoned, startTime := Some(t),
                  readEndTime := Some(t + Minutes(5)), writeEndTime := Some(t + Minutes(95)));
    s.AddExam(running);
    s.AddExam(gone);
    assert s.exams == [running, gone];

    s.PauseSession(None, "Power failure", t + Minutes(5));
    assert s.exams == [running, gone];
    assert s.pauseDurationTotal == 0 && s.pauseStartTime == Some(t + Minutes(5));
    s.ResumeSession(None, t + Minutes(8));
    assert s.pauseDurationTotal == Minutes(3) && !s.isPaused;
    assert s.exams == Recalculated([running, gone], Minutes(3), t + Minutes(8));
    assert s.exams[0].readEndTime == Some(t + Minutes(13));
    assert s.exams[0].writeEndTime == Some(t + Minutes(133));
    assert s.exams[1] == gone;
  }

  /** `if (examId)` is false for an empty id: pausing with `""` pauses the whole session and no exam. */
  method EmptyIdScenario(t: int)
    requires t > 0
  {
    var s := new AppState();
    s.AddExam(MathsStarted(t));
    assert s.exams == [MathsStarted(t)];
    assert !IsExamTarget(Some(""));
    s.PauseSession(Some(""), "Evacuation", t + Minutes(2));
    assert s.isPaused && s.pauseStartTime == Some(t + Minutes(2));
    assert s.exams == [MathsStarted(t)];
  }
}
