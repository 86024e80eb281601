/**
 * What the end-time recalculation of src/context/AppContext.tsx promises:
 * terminal exams keep their times, every other exam starts at the shared
 * session start and ends after its configured durations plus the four
 * additive delays, a second pass changes nothing, and each pause, rest break
 * or reader/writer session moves the end times by exactly its length.
 */
module Timing {
  import opened Wrappers
  import opened Exams

  /** A finished or abandoned exam leaves the recalculation exactly as it entered it. */
  lemma RecalculatedKeepsTerminal(exams: seq<Exam>, globalPause: int, now: int, i: nat)
    requires i < |exams| && exams[i].status.IsTerminal()
    ensures Recalculated(exams, globalPause, now)[i] == exams[i]
  {
  }

  /**
   * Every other exam gets the shared start, a reading end after the reading
   * period plus all four delays, and a writing end one writing period later;
   * nothing else about it changes.
   */
  lemma RecalculatedEndTimes(exams: seq<Exam>, globalPause: int, now: int, i: nat)
    requires i < |exams| && !exams[i].status.IsTerminal()
    ensures var e, r, start := exams[i], Recalculated(exams, globalPause, now)[i], SessionStart(exams, now);
            && r.startTime == Some(start)
            && r.readEndTime == Some(start + e.readMins * 60000
                                     + globalPause
                                     + Offset(e.pauseDurationTotal, e.isPaused, e.pauseStartTime, now)
                                     + Offset(e.sp.restTaken, e.sp.onRest, e.sp.restStartTime, now)
                                     + Offset(e.sp.readerWriterTaken, e.sp.onReaderWriter, e.sp.readerWriterStartTime, now))
            && r.writeEndTime == Some(r.readEndTime.value + (e.writeHrs * 60 + e.writeMins + e.sp.extraTime) * 60000)
            && r.(startTime := e.startTime, readEndTime := e.readEndTime, writeEndTime := e.writeEndTime) == e
  {
  }

  /** With a non-negative writing allocation the reading period never ends after the writing period. */
  lemma RecalculatedReadBeforeWrite(exams: seq<Exam>, globalPause: int, now: int, i: nat)
    requires i < |exams| && !exams[i].status.IsTerminal()
    requires exams[i].writeHrs >= 0 && exams[i].writeMins >= 0 && exams[i].sp.extraTime >= 0
    ensures var r := Recalculated(exams, globalPause, now)[i];
            r.readEndTime.Some? && r.writeEndTime.Some? && r.readEndTime.value <= r.writeEndTime.value
  {
  }

  /** The shared start survives a pass of the recalculation. */
  lemma SessionStartRecalculated(exams: seq<Exam>, globalPause: int, now: int)
    ensures SessionStart(Recalculated(exams, globalPause, now), now) == SessionStart(exams, now)
  {
    if |exams| > 0 && !exams[0].status.IsTerminal() {
      var start := SessionStart(exams, now);
      assert Recalculated(exams, globalPause, now)[0].startTime == Some(start);
    }
  }

  /** Running the recalculation twice at the same instant gives what running it once gives. */
  lemma RecalculatedIdempotent(exams: seq<Exam>, globalPause: int, now: int)
    ensures Recalculated(Recalculated(exams, globalPause, now), globalPause, now) == Recalculated(exams, globalPause, now)
  {
    var once := Recalculated(exams, globalPause, now);
    SessionStartRecalculated(exams, globalPause, now);
    var start := SessionStart(exams, now);
    forall i | 0 <= i < |exams|
      ensures Recalculated(once, globalPause, now)[i] == once[i]
    {
      assert RecalculatedExam(once[i], start, globalPause, now) == once[i];
    }
  }

  /**
   * A global pause of length `d` moves every running exam's reading and
   * writing end by `d` and leaves finished and abandoned exams alone.
   */
  lemma GlobalPauseShifts(exams: seq<Exam>, globalPause: int, d: int, now: int, i: nat)
    requires i < |exams|
    ensures var before, after := Recalculated(exams, globalPause, now)[i], Recalculated(exams, globalPause + d, now)[i];
            if exams[i].status.IsTerminal() then after == before == exams[i]
            else && after.readEndTime == Some(before.readEndTime.value + d)
                 && after.writeEndTime == Some(before.writeEndTime.value + d)
                 && after.startTime == before.startTime
  {
  }

  /** Resuming at `now` moves the pause so far into the total, so end times computed at `now` do not move. */
  lemma ResumeKeepsEndTimes(e: Exam, start: int, globalPause: int, now: int)
    requires e.isPaused && Truthy(e.pauseStartTime)
    ensures RecalculatedExam(Resumed(e, now), start, globalPause, now).readEndTime == RecalculatedExam(e, start, globalPause, now).readEndTime
    ensures RecalculatedExam(Resumed(e, now), start, globalPause, now).writeEndTime == RecalculatedExam(e, start, globalPause, now).writeEndTime
  {
  }

  /** A running exam paused at `t1` and resumed at `t2` ends `t2 - t1` later than it would have. */
  lemma PauseResumeShifts(e: Exam, t1: int, t2: int, start: int, globalPause: int, now: int)
    requires !e.status.IsTerminal() && !e.isPaused && t1 != 0
    ensures var before, after := RecalculatedExam(e, start, globalPause, now), RecalculatedExam(Resumed(Paused(e, t1), t2), start, globalPause, now);
            && after.readEndTime == Some(before.readEndTime.value + (t2 - t1))
            && after.writeEndTime == Some(before.writeEndTime.value + (t2 - t1))
  {
  }

  /** A rest break started at `t1` and ended at `t2` moves the end times by `t2 - t1`. */
  lemma RestBreakShifts(e: Exam, t1: int, t2: int, start: int, globalPause: int, now: int)
    requires !e.status.IsTerminal() && !e.sp.onRest && t1 != 0
    ensures var before, after := RecalculatedExam(e, start, globalPause, now), RecalculatedExam(RestToggled(RestToggled(e, t1), t2), start, globalPause, now);
            && after.readEndTime == Some(before.readEndTime.value + (t2 - t1))
            && after.writeEndTime == Some(before.writeEndTime.value + (t2 - t1))
  {
  }

  /** A reader/writer session started at `t1` and ended at `t2` moves the end times by `t2 - t1`. */
  lemma ReaderWriterShifts(e: Exam, t1: int, t2: int, start: int, globalPause: int, now: int)
    requires !e.status.IsTerminal() && !e.sp.onReaderWriter && t1 != 0
    ensures var before, after := RecalculatedExam(e, start, globalPause, now), RecalculatedExam(ReaderWriterToggled(ReaderWriterToggled(e, t1), t2), start, globalPause, now);
            && after.readEndTime == Some(before.readEndTime.value + (t2 - t1))
            && after.writeEndTime == Some(before.writeEndTime.value + (t2 - t1))
  {
  }

  /** Toggling rest on at `t1` and off at `t2` banks `t2 - t1` and changes nothing else. */
  lemma RestToggleTwice(e: Exam, t1: int, t2: int)
    requires !e.sp.onRest && t1 != 0
    ensures RestToggled(RestToggled(e, t1), t2) == e.(sp := e.sp.(restTaken := e.sp.restTaken + (t2 - t1), restStartTime := None))
  {
  }

  /** Toggling reader/writer on at `t1` and off at `t2` banks `t2 - t1` and changes nothing else. */
  lemma ReaderWriterToggleTwice(e: Exam, t1: int, t2: int)
    requires !e.sp.onReaderWriter && t1 != 0
    ensures ReaderWriterToggled(ReaderWriterToggled(e, t1), t2)
            == e.(sp := e.sp.(readerWriterTaken := e.sp.readerWriterTaken + (t2 - t1), readerWriterStartTime := None))
  {
  }

  // ---------------------------------------------------------------- whole histories

  /** Intervals `(start, end)` whose starts are truthy instants, as the reducer records them. */
  predicate Intervals(ivs: seq<(int, int)>) {
    forall k :: 0 <= k < |ivs| ==> ivs[k].0 != 0
  }

  function TotalLength(ivs: seq<(int, int)>): int {
    if ivs == [] then 0 else (ivs[0].1 - ivs[0].0) + TotalLength(ivs[1..])
  }

  /** An exam taken through one pause/resume pair per interval. */
  function PauseHistory(e: Exam, ivs: seq<(int, int)>): Exam
    requires Intervals(ivs)
    decreases |ivs|
  {
    if ivs == [] then e else PauseHistory(Resumed(Paused(e, ivs[0].0), ivs[0].1), ivs[1..])
  }

  /** An exam taken through one rest break per interval. */
  function RestHistory(e: Exam, ivs: seq<(int, int)>): Exam
    requires Intervals(ivs)
    decreases |ivs|
  {
    if ivs == [] then e else RestHistory(RestToggled(RestToggled(e, ivs[0].0), ivs[0].1), ivs[1..])
  }

  /** An exam taken through one reader/writer session per interval. */
  function ReaderWriterHistory(e: Exam, ivs: seq<(int, int)>): Exam
    requires Intervals(ivs)
    decreases |ivs|
  {
    if ivs == [] then e else ReaderWriterHistory(ReaderWriterToggled(ReaderWriterToggled(e, ivs[0].0), ivs[0].1), ivs[1..])
  }

  /** However many pause/resume cycles, the pause total grows by exactly the sum of their lengths. */
  lemma {:induction false} PauseHistoryTotal(e: Exam, ivs: seq<(int, int)>)
    requires Intervals(ivs) && !e.isPaused
    decreases |ivs|
    ensures var r := PauseHistory(e, ivs);
            && r.pauseDurationTotal == e.pauseDurationTotal + TotalLength(ivs)
            && !r.isPaused
            && (ivs != [] ==> r.pauseStartTime.None?)
            && r.(pauseDurationTotal := e.pauseDurationTotal, pauseStartTime := e.pauseStartTime) == e
  {
    if ivs != [] {
      var next := Resumed(Paused(e, ivs[0].0), ivs[0].1);
      assert Intervals(ivs[1..]);
      PauseHistoryTotal(next, ivs[1..]);
      if ivs[1..] == [] {
        assert PauseHistory(next, ivs[1..]) == next;
      }
    }
  }

  /** However many rest breaks, the rest taken grows by exactly the sum of their lengths. */
  lemma {:induction false} RestHistoryTotal(e: Exam, ivs: seq<(int, int)>)
    requires Intervals(ivs) && !e.sp.onRest
    decreases |ivs|
    ensures var r := RestHistory(e, ivs);
            && r.sp.restTaken == e.sp.restTaken + TotalLength(ivs)
            && !r.sp.onRest
            && (ivs != [] ==> r.sp.restStartTime.None?)
            && r.(sp := r.sp.(restTaken := e.sp.restTaken, restStartTime := e.sp.restStartTime)) == e
  {
    if ivs != [] {
      var next := RestToggled(RestToggled(e, ivs[0].0), ivs[0].1);
      assert Intervals(ivs[1..]);
      RestHistoryTotal(next, ivs[1..]);
      if ivs[1..] == [] {
        assert RestHistory(next, ivs[1..]) == next;
      }
    }
  }

  /** However many reader/writer sessions, the time taken grows by exactly the sum of their lengths. */
  lemma {:induction false} ReaderWriterHistoryTotal(e: Exam, ivs: seq<(int, int)>)
    requires Intervals(ivs) && !e.sp.onReaderWriter
    decreases |ivs|
    ensures var r := ReaderWriterHistory(e, ivs);
            && r.sp.readerWriterTaken == e.sp.readerWriterTaken + TotalLength(ivs)
            && !r.sp.onReaderWriter
            && (ivs != [] ==> r.sp.readerWriterStartTime.None?)
            && r.(sp := r.sp.(readerWriterTaken := e.sp.readerWriterTaken, readerWriterStartTime := e.sp.readerWriterStartTime)) == e
  {
    if ivs != [] {
      var next := ReaderWriterToggled(ReaderWriterToggled(e, ivs[0].0), ivs[0].1);
      assert Intervals(ivs[1..]);
      ReaderWriterHistoryTotal(next, ivs[1..]);
      if ivs[1..] == [] {
        assert ReaderWriterHistory(next, ivs[1..]) == next;
      }
    }
  }

  // ---------------------------------------------------------------- session start and end

  /**
   * Going live stamps every exam with `now` and then recalculates: all exams,
   * terminal or not, share the start `now`, and each running exam's reading
   * end is `now` plus its reading period plus its delays.
   */
  lemma StartLiveTimes(exams: seq<Exam>, globalPause: int, now: int, i: nat)
    requires i < |exams|
    ensures var r := Recalculated(Stamped(exams, now), globalPause, now)[i];
            && r.startTime == Some(now)
            && (!exams[i].status.IsTerminal() ==>
                  r.readEndTime == Some(now + ReadMillis(exams[i]) + TotalOffset(exams[i], globalPause, now)))
            && (exams[i].status.IsTerminal() ==>
                  r.readEndTime == exams[i].readEndTime && r.writeEndTime == exams[i].writeEndTime)
  {
    assert SessionStart(Stamped(exams, now), now) == now;
  }

  /**
   * Ending a session keeps each exam's pause total, so the next recalculation
   * of that exam still counts the pauses of the earlier session.
   */
  lemma EndedExamKeepsPauseHistory(e: Exam, start: int, globalPause: int, now: int)
    ensures RecalculatedExam(EndedExam(e), start, globalPause, now).readEndTime
            == Some(start + ReadMillis(e) + globalPause + e.pauseDurationTotal)
  {
  }
}
