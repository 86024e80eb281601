/**
 * The exam record of src/types.ts and the timing rules of
 * src/context/AppContext.tsx stated as functions: the four additive delays,
 * the end-time recalculation of one exam and of the whole list, the per-exam
 * effect of each timing event, and the list operations the reducer uses.
 */
module Exams {
  import opened Wrappers

  datatype Status = Running | Finished | Abandoned {
    /** Finished and abandoned exams are skipped by the recalculation. */
    predicate IsTerminal() {
      Finished? || Abandoned?
    }
  }

  /** Special provisions. Durations are minutes; `restTaken` and `readerWriterTaken` are milliseconds. */
  datatype Provisions = Provisions(
    studentName: string,
    showStudentName: bool,
    extraTime: int,
    restBreaks: int,
    restTaken: int,
    onRest: bool,
    restStartTime: Option<int>,
    readerWriterTime: int,
    readerWriterTaken: int,
    onReaderWriter: bool,
    readerWriterStartTime: Option<int>)

  /** One exam. Instants are integer milliseconds; `None` stands for `null` and `undefined`. */
  datatype Exam = Exam(
    id: string,
    name: string,
    readMins: int,
    writeHrs: int,
    writeMins: int,
    optionalInfo: string,
    hasAccessCode: bool,
    accessCode: string,
    sp: Provisions,
    status: Status,
    isPaused: bool,
    pauseStartTime: Option<int>,
    pauseDurationTotal: int,
    startTime: Option<int>,
    readEndTime: Option<int>,
    writeEndTime: Option<int>)

  const MillisPerMinute := 60000

  /** JavaScript truthiness of a `number | null` instant: null and 0 are both false. */
  predicate Truthy(t: Option<int>) {
    t.Some? && t.value != 0
  }

  /** `t || fallback`. */
  function OrElse(t: Option<int>, fallback: int): int {
    if Truthy(t) then t.value else fallback
  }

  /**
   * `total + (active ? now - (since || now) : 0)`: an accumulated delay plus
   * the part of it still in progress at `now`. The ensures are the
   * specification by cases that the timing lemmas build on.
   */
  function Offset(total: int, active: bool, since: Option<int>, now: int): (r: int)
    ensures !active || !Truthy(since) ==> r == total
    ensures active && Truthy(since) ==> r == total + (now - since.value)
  {
    total + (if active then now - OrElse(since, now) else 0)
  }

  function PauseOffset(e: Exam, now: int): int {
    Offset(e.pauseDurationTotal, e.isPaused, e.pauseStartTime, now)
  }

  function RestOffset(e: Exam, now: int): int {
    Offset(e.sp.restTaken, e.sp.onRest, e.sp.restStartTime, now)
  }

  function ReaderWriterOffset(e: Exam, now: int): int {
    Offset(e.sp.readerWriterTaken, e.sp.onReaderWriter, e.sp.readerWriterStartTime, now)
  }

  /** Every kind of time that does not count: the global pause, the exam's own pause, rest, reader/writer. */
  function TotalOffset(e: Exam, globalPause: int, now: int): int {
    globalPause + PauseOffset(e, now) + RestOffset(e, now) + ReaderWriterOffset(e, now)
  }

  function ReadMillis(e: Exam): int {
    e.readMins * MillisPerMinute
  }

  /** Extra time lengthens the writing period only. */
  function WriteMillis(e: Exam): int {
    (e.writeHrs * 60 + e.writeMins + e.sp.extraTime) * MillisPerMinute
  }

  /** `exams[0]?.startTime || now`: the instant every exam is taken to have started at. */
  function SessionStart(exams: seq<Exam>, now: int): (r: int)
    ensures r == now || (|exams| > 0 && exams[0].startTime == Some(r) && r != 0)
    ensures |exams| > 0 && Truthy(exams[0].startTime) ==> r == exams[0].startTime.value
  {
    if |exams| == 0 then now else OrElse(exams[0].startTime, now)
  }

  /**
   * An instant of 0 counts as absent: a pause, rest or reader/writer start of
   * 0 adds nothing in progress, and a first start time of 0 makes the session
   * start `now`, exactly as a missing one does.
   */
  lemma ZeroInstantIsAbsent(total: int, now: int, exams: seq<Exam>)
    ensures Offset(total, true, Some(0), now) == total == Offset(total, true, None, now)
    ensures |exams| > 0 && exams[0].startTime == Some(0) ==> SessionStart(exams, now) == now
  {
  }

  /** What one pass of the recalculation does to one exam. */
  function RecalculatedExam(e: Exam, start: int, globalPause: int, now: int): (r: Exam)
    ensures e.status.IsTerminal() ==> r == e
    ensures !e.status.IsTerminal() ==>
              && r.startTime == Some(start) && r.readEndTime.Some?
              && r.writeEndTime == Some(r.readEndTime.value + WriteMillis(e))
  {
    if e.status.IsTerminal() then e
    else
      var readEnd := start + ReadMillis(e) + TotalOffset(e, globalPause, now);
      e.(startTime := Some(start), readEndTime := Some(readEnd), writeEndTime := Some(readEnd + WriteMillis(e)))
  }

  /** The exam list after `recalculateAllExamEndTimes`, for a global pause offset already worked out. */
  function Recalculated(exams: seq<Exam>, globalPause: int, now: int): (r: seq<Exam>)
    ensures |r| == |exams|
  {
    seq(|exams|, i requires 0 <= i < |exams| => RecalculatedExam(exams[i], SessionStart(exams, now), globalPause, now))
  }

  // ---------------------------------------------------------------- per-exam events

  /** The exam side of a pause: the flag set and the pause start overwritten, even when already paused. */
  function Paused(e: Exam, now: int): (r: Exam)
    ensures r.isPaused && r.pauseStartTime == Some(now)
    ensures r.(isPaused := e.isPaused, pauseStartTime := e.pauseStartTime) == e
  {
    e.(isPaused := true, pauseStartTime := Some(now))
  }

  /** The exam side of a resume: the pause so far moves into the total. */
  function Resumed(e: Exam, now: int): (r: Exam)
    requires Truthy(e.pauseStartTime)
    ensures !r.isPaused && r.pauseStartTime.None?
    ensures r.pauseDurationTotal - e.pauseDurationTotal == now - e.pauseStartTime.value
    ensures r.(isPaused := e.isPaused, pauseStartTime := e.pauseStartTime, pauseDurationTotal := e.pauseDurationTotal) == e
  {
    e.(pauseDurationTotal := e.pauseDurationTotal + (now - e.pauseStartTime.value),
       isPaused := false, pauseStartTime := None)
  }

  /** `TOGGLE_REST_BREAK` on one exam: start a rest break, or end one and bank its length. */
  function RestToggled(e: Exam, now: int): (r: Exam)
    ensures r.sp.onRest == !e.sp.onRest
    ensures r.sp.onRest ==> r.sp.restStartTime == Some(now) && r.sp.restTaken == e.sp.restTaken
    ensures !r.sp.onRest ==> r.sp.restStartTime.None? && r.sp.restTaken == RestOffset(e, now)
    ensures r.(sp := e.sp) == e
    ensures r.sp.(onRest := e.sp.onRest, restStartTime := e.sp.restStartTime, restTaken := e.sp.restTaken) == e.sp
  {
    if e.sp.onRest then
      e.(sp := e.sp.(restTaken := e.sp.restTaken + (now - OrElse(e.sp.restStartTime, now)),
                     onRest := false, restStartTime := None))
    else
      e.(sp := e.sp.(onRest := true, restStartTime := Some(now)))
  }

  /** `TOGGLE_READER_WRITER` on one exam, the same rule on the reader/writer fields. */
  function ReaderWriterToggled(e: Exam, now: int): (r: Exam)
    ensures r.sp.onReaderWriter == !e.sp.onReaderWriter
    ensures r.sp.onReaderWriter ==> r.sp.readerWriterStartTime == Some(now) && r.sp.readerWriterTaken == e.sp.readerWriterTaken
    ensures !r.sp.onReaderWriter ==> r.sp.readerWriterStartTime.None? && r.sp.readerWriterTaken == ReaderWriterOffset(e, now)
    ensures r.(sp := e.sp) == e
    ensures r.sp.(onReaderWriter := e.sp.onReaderWriter, readerWriterStartTime := e.sp.readerWriterStartTime,
                  readerWriterTaken := e.sp.readerWriterTaken) == e.sp
  {
    if e.sp.onReaderWriter then
      e.(sp := e.sp.(readerWriterTaken := e.sp.readerWriterTaken + (now - OrElse(e.sp.readerWriterStartTime, now)),
                     onReaderWriter := false, readerWriterStartTime := None))
    else
      e.(sp := e.sp.(onReaderWriter := true, readerWriterStartTime := Some(now)))
  }

  /** The configuration an invigilator entered, which ending a session must not touch. */
  predicate SameConfiguration(a: Exam, b: Exam) {
    && a.id == b.id && a.name == b.name
    && a.readMins == b.readMins && a.writeHrs == b.writeHrs && a.writeMins == b.writeMins
    && a.optionalInfo == b.optionalInfo && a.hasAccessCode == b.hasAccessCode && a.accessCode == b.accessCode
    && a.sp.studentName == b.sp.studentName && a.sp.showStudentName == b.sp.showStudentName
    && a.sp.extraTime == b.sp.extraTime && a.sp.restBreaks == b.sp.restBreaks
    && a.sp.readerWriterTime == b.sp.readerWriterTime
  }

  /** The exam side of `END_SESSION`. Pause start, pause total and the provision start instants are kept. */
  function EndedExam(e: Exam): (r: Exam)
    ensures r.status == Running && !r.isPaused && !r.sp.onRest && !r.sp.onReaderWriter
    ensures r.sp.restTaken == 0 && r.sp.readerWriterTaken == 0
    ensures SameConfiguration(r, e)
    ensures r.pauseStartTime == e.pauseStartTime && r.pauseDurationTotal == e.pauseDurationTotal
    ensures r.sp.restStartTime == e.sp.restStartTime && r.sp.readerWriterStartTime == e.sp.readerWriterStartTime
    ensures r.startTime == e.startTime && r.readEndTime == e.readEndTime && r.writeEndTime == e.writeEndTime
  {
    e.(status := Running, isPaused := false,
       sp := e.sp.(onRest := false, restTaken := 0, onReaderWriter := false, readerWriterTaken := 0))
  }

  /**
   * The stamping loop of `START_LIVE_SESSION`: every exam, terminal or not,
   * gets the same start. The ensures are the per-exam specification that the
   * loop in `AppState.StartLiveSession` is proved against.
   */
  function Stamped(exams: seq<Exam>, now: int): (r: seq<Exam>)
    ensures |r| == |exams|
    ensures forall i :: 0 <= i < |r| ==> r[i] == exams[i].(startTime := Some(now))
  {
    seq(|exams|, i requires 0 <= i < |exams| => exams[i].(startTime := Some(now)))
  }

  // ---------------------------------------------------------------- list operations

  /** `exams.find(e => e.id === id)` / `findIndex`: the first exam with that id. */
  function FindExam(exams: seq<Exam>, id: string): (k: Option<nat>)
    ensures k.Some? ==> k.value < |exams| && exams[k.value].id == id
    ensures k.Some? ==> forall j :: 0 <= j < k.value ==> exams[j].id != id
    ensures k.None? ==> forall j :: 0 <= j < |exams| ==> exams[j].id != id
  {
    if exams == [] then None
    else if exams[0].id == id then Some(0)
    else
      match FindExam(exams[1..], id)
      case None => None
      case Some(j) => Some(j + 1)
  }

  predicate NameTaken(exams: seq<Exam>, name: string) {
    exists e :: e in exams && e.name == name
  }

  /**
   * The `ADD_EXAMS` filter: the payload exams whose name no exam of the current
   * list has. Duplicates inside the payload are not filtered against each other.
   */
  function FreshByName(payload: seq<Exam>, existing: seq<Exam>): (r: seq<Exam>)
    ensures |r| <= |payload|
    ensures forall e :: e in r <==> e in payload && !NameTaken(existing, e.name)
  {
    if payload == [] then []
    else
      var rest := FreshByName(payload[1..], existing);
      if NameTaken(existing, payload[0].name) then rest else [payload[0]] + rest
  }

  /**
   * The name filter works element by element: it distributes over
   * concatenation, so the kept payload exams keep their order, repeats included.
   */
  lemma {:induction false} FreshByNameAppend(a: seq<Exam>, b: seq<Exam>, existing: seq<Exam>)
    ensures FreshByName(a + b, existing) == FreshByName(a, existing) + FreshByName(b, existing)
  {
    if a == [] {
      assert a + b == b;
    } else {
      assert (a + b)[0] == a[0];
      assert (a + b)[1..] == a[1..] + b;
      FreshByNameAppend(a[1..], b, existing);
    }
  }

  /** The `DELETE_EXAM` filter: every exam with that id goes, the others stay in order. */
  function WithoutId(exams: seq<Exam>, id: string): (r: seq<Exam>)
    ensures |r| <= |exams|
    ensures forall e :: e in r <==> e in exams && e.id != id
    ensures (forall j :: 0 <= j < |exams| ==> exams[j].id != id) ==> r == exams
  {
    if exams == [] then []
    else
      var rest := WithoutId(exams[1..], id);
      if exams[0].id == id then rest else [exams[0]] + rest
  }

  /** Filtering distributes over concatenation, so the order of the kept exams is the order they had. */
  lemma {:induction false} WithoutIdAppend(a: seq<Exam>, b: seq<Exam>, id: string)
    ensures WithoutId(a + b, id) == WithoutId(a, id) + WithoutId(b, id)
  {
    if a == [] {
      assert a + b == b;
    } else {
      assert (a + b)[0] == a[0];
      assert (a + b)[1..] == a[1..] + b;
      WithoutIdAppend(a[1..], b, id);
    }
  }

  /**
   * `splice(from, 1)` then `splice(to, 0, moved)`: the exam at `from` is taken
   * out and put back at `to`, or at the end when `to` is past it.
   */
  function Moved(exams: seq<Exam>, from: nat, to: nat): (r: seq<Exam>)
    requires from < |exams|
    ensures |r| == |exams|
    ensures multiset(r) == multiset(exams)
    ensures r[if to < |exams| then to else |exams| - 1] == exams[from]
    ensures var at := if to < |exams| then to else |exams| - 1;
            r[..at] + r[at + 1..] == exams[..from] + exams[from + 1..]
  {
    var rest := exams[..from] + exams[from + 1..];
    assert |rest| == |exams| - 1;
    var at := if to < |exams| then to else |exams| - 1;
    TakeOutMultiset(exams, from);
    PutBack(rest, at, exams[from]);
    rest[..at] + [exams[from]] + rest[at..]
  }

  /** Taking one element out of a list removes exactly it from the multiset. */
  lemma TakeOutMultiset(s: seq<Exam>, k: nat)
    requires k < |s|
    ensures multiset(s[..k] + s[k + 1..]) + multiset{s[k]} == multiset(s)
  {
    assert s == s[..k] + [s[k]] + s[k + 1..];
  }

  /**
   * Inserting an element at `k` puts it there, adds exactly it to the
   * multiset and leaves the others in order around it.
   */
  lemma PutBack(s: seq<Exam>, k: nat, x: Exam)
    requires k <= |s|
    ensures var r := s[..k] + [x] + s[k..];
            && |r| == |s| + 1 && r[k] == x
            && multiset(r) == multiset(s) + multiset{x}
            && r[..k] + r[k + 1..] == s
  {
    var r := s[..k] + [x] + s[k..];
    assert s == s[..k] + s[k..];
    assert r[..k] == s[..k] && r[k + 1..] == s[k..];
  }

  /** The first-match lookup depends on the ids alone, not on any other field. */
  lemma {:induction false} FindExamSameIds(a: seq<Exam>, b: seq<Exam>, id: string)
    requires |a| == |b| && forall j :: 0 <= j < |a| ==> a[j].id == b[j].id
    ensures FindExam(a, id) == FindExam(b, id)
  {
    if a != [] {
      FindExamSameIds(a[1..], b[1..], id);
    }
  }

  /** The exam `FINISH_EXAM` changes: the first one with that id, unless it is already finished. */
  function FinishTarget(exams: seq<Exam>, id: string): (k: Option<nat>)
    ensures k.Some? ==> k.value < |exams| && exams[k.value].status != Finished
    ensures k.Some? ==> k == FindExam(exams, id)
    ensures k.None? ==> FindExam(exams, id).None? || exams[FindExam(exams, id).value].status == Finished
  {
    var k := FindExam(exams, id);
    if k.Some? && exams[k.value].status != Finished then k else None
  }

  /** The exam list after `FINISH_EXAM`. An abandoned exam is finished too: only `finished` is guarded. */
  function FinishedExams(exams: seq<Exam>, id: string): (r: seq<Exam>)
    ensures |r| == |exams|
  {
    var k := FinishTarget(exams, id);
    if k.Some? then exams[k.value := exams[k.value].(status := Finished)] else exams
  }

  /**
   * What `FINISH_EXAM` does to the list: the first exam with the id becomes
   * finished, whatever its status was (abandoned included), and no other exam
   * and no other field changes; an unknown id changes nothing.
   */
  lemma FinishedExamsEffect(exams: seq<Exam>, id: string)
    ensures FindExam(exams, id).None? ==> FinishedExams(exams, id) == exams
    ensures FindExam(exams, id).Some? ==>
              var k, r := FindExam(exams, id).value, FinishedExams(exams, id);
              && r[k].status == Finished
              && r[k].(status := exams[k].status) == exams[k]
              && forall j :: 0 <= j < |exams| && j != k ==> r[j] == exams[j]
  {
  }

  /** Finishing twice is finishing once, and the second time there is nothing left to log. */
  lemma FinishIdempotent(exams: seq<Exam>, id: string)
    ensures FinishTarget(FinishedExams(exams, id), id).None?
    ensures FinishedExams(FinishedExams(exams, id), id) == FinishedExams(exams, id)
  {
    FindExamSameIds(exams, FinishedExams(exams, id), id);
  }
}
