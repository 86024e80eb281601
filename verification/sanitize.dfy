/**
 * `sanitizeLoadedExams` of src/context/AppContext.tsx: the import boundary
 * that turns loosely shaped loaded records into exams, filling missing fields
 * with defaults and switching the in-progress special-provision state off.
 */
module Sanitize {
  import opened Wrappers
  import opened Digits
  import opened Exams

  /** A loaded `sp` object: each field may be missing. */
  datatype RawProvisions = RawProvisions(
    studentName: Option<string>,
    showStudentName: Option<bool>,
    extraTime: Option<int>,
    restBreaks: Option<int>,
    restTaken: Option<int>,
    onRest: Option<bool>,
    restStartTime: Option<int>,
    readerWriterTime: Option<int>,
    readerWriterTaken: Option<int>,
    onReaderWriter: Option<bool>,
    readerWriterStartTime: Option<int>)

  /**
   * One loaded array element: something that is not an object (or is null),
   * or an object whose fields may each be missing. A missing `sp` stands for
   * a missing, null or otherwise falsy one.
   */
  datatype RawExam =
    | NotAnObject
    | RawRecord(
        id: Option<string>,
        name: Option<string>,
        readMins: Option<int>,
        writeHrs: Option<int>,
        writeMins: Option<int>,
        optionalInfo: Option<string>,
        hasAccessCode: Option<bool>,
        accessCode: Option<string>,
        sp: Option<RawProvisions>,
        status: Option<Status>,
        isPaused: Option<bool>,
        pauseStartTime: Option<int>,
        pauseDurationTotal: Option<int>,
        startTime: Option<int>,
        readEndTime: Option<int>,
        writeEndTime: Option<int>)

  const EmptyRecord := RawRecord(None, None, None, None, None, None, None, None,
                                 None, None, None, None, None, None, None, None)

  /** The id given to a loaded exam without one: `loaded-<now>-<index>`. */
  function GeneratedId(now: nat, index: nat): string {
    "loaded-" + NatToString(now) + "-" + NatToString(index)
  }

  /** `{ ...defaultSp, ...loadedSp }` with the in-progress fields forced off. */
  function SanitizedProvisions(raw: Option<RawProvisions>): (p: Provisions)
    ensures !p.onRest && p.restTaken == 0 && p.restStartTime.None?
    ensures !p.onReaderWriter && p.readerWriterTaken == 0 && p.readerWriterStartTime.None?
    ensures raw.Some? && raw.value.extraTime.Some? ==> p.extraTime == raw.value.extraTime.value
    ensures (raw.None? || raw.value.extraTime.None?) ==> p.extraTime == 0
  {
    var p := raw.GetOr(RawProvisions(None, None, None, None, None, None, None, None, None, None, None));
    Provisions(
      studentName := p.studentName.GetOr(""),
      showStudentName := p.showStudentName.GetOr(false),
      extraTime := p.extraTime.GetOr(0),
      restBreaks := p.restBreaks.GetOr(0),
      restTaken := 0,
      onRest := false,
      restStartTime := None,
      readerWriterTime := p.readerWriterTime.GetOr(0),
      readerWriterTaken := 0,
      onReaderWriter := false,
      readerWriterStartTime := None)
  }

  /** The callback of the `map`, for the element at `index`. */
  function SanitizedExam(raw: RawExam, now: nat, index: nat): (e: Exam)
    ensures e.id != "" && e.name != ""
    ensures raw.RawRecord? && raw.id.Some? && raw.id.value != "" ==> e.id == raw.id.value
    ensures !(raw.RawRecord? && raw.id.Some? && raw.id.value != "") ==> e.id == GeneratedId(now, index)
    ensures raw.RawRecord? && raw.name.Some? && raw.name.value != "" ==> e.name == raw.name.value
    ensures raw.NotAnObject? || raw.name.None? ==> e.name == "Untitled Exam"
    ensures raw.RawRecord? && raw.name == Some("") ==> e.name == "Untitled Loaded Exam"
    ensures raw.RawRecord? ==> e.pauseStartTime == raw.pauseStartTime && e.startTime == raw.startTime
    ensures e.sp == SanitizedProvisions(if raw.RawRecord? then raw.sp else None)
  {
    var x := if raw.NotAnObject? then EmptyRecord else raw;
    var id := x.id.GetOr("");
    var name := x.name.GetOr("Untitled Exam");
    Exam(
      id := if id == "" then GeneratedId(now, index) else id,
      name := if name == "" then "Untitled Loaded Exam" else name,
      readMins := x.readMins.GetOr(0),
      writeHrs := x.writeHrs.GetOr(0),
      writeMins := x.writeMins.GetOr(0),
      optionalInfo := x.optionalInfo.GetOr(""),
      hasAccessCode := x.hasAccessCode.GetOr(false),
      accessCode := x.accessCode.GetOr(""),
      sp := SanitizedProvisions(x.sp),
      status := x.status.GetOr(Running),
      isPaused := x.isPaused.GetOr(false),
      pauseStartTime := x.pauseStartTime,
      pauseDurationTotal := x.pauseDurationTotal.GetOr(0),
      startTime := x.startTime,
      readEndTime := x.readEndTime,
      writeEndTime := x.writeEndTime)
  }

  /**
   * The whole import: `None` stands for a value that is not an array. Every
   * imported exam has an id and a name, and no rest break or reader/writer
   * session in progress or banked.
   */
  function SanitizeLoadedExams(loaded: Option<seq<RawExam>>, now: nat): (r: seq<Exam>)
    ensures loaded.None? ==> r == []
    ensures loaded.Some? ==> |r| == |loaded.value|
    ensures loaded.Some? ==> forall i :: 0 <= i < |r| ==> r[i] == SanitizedExam(loaded.value[i], now, i)
    ensures forall i :: 0 <= i < |r| ==>
              && r[i].id != "" && r[i].name != ""
              && !r[i].sp.onRest && r[i].sp.restTaken == 0 && r[i].sp.restStartTime.None?
              && !r[i].sp.onReaderWriter && r[i].sp.readerWriterTaken == 0 && r[i].sp.readerWriterStartTime.None?
  {
    match loaded
    case None => []
    case Some(raws) => seq(|raws|, i requires 0 <= i < |raws| => SanitizedExam(raws[i], now, i))
  }

  /** An exam written out as a record with every field present, as a saved session holds it. */
  function Saved(e: Exam): RawExam {
    RawRecord(
      Some(e.id), Some(e.name), Some(e.readMins), Some(e.writeHrs), Some(e.writeMins),
      Some(e.optionalInfo), Some(e.hasAccessCode), Some(e.accessCode),
      Some(RawProvisions(
        Some(e.sp.studentName), Some(e.sp.showStudentName), Some(e.sp.extraTime), Some(e.sp.restBreaks),
        Some(e.sp.restTaken), Some(e.sp.onRest), e.sp.restStartTime,
        Some(e.sp.readerWriterTime), Some(e.sp.readerWriterTaken), Some(e.sp.onReaderWriter),
        e.sp.readerWriterStartTime)),
      Some(e.status), Some(e.isPaused), e.pauseStartTime, Some(e.pauseDurationTotal),
      e.startTime, e.readEndTime, e.writeEndTime)
  }

  /**
   * Saving and loading an exam with an id and a name gives it back with only
   * the rest and reader/writer state reset: its status, its own pause state
   * and its derived times come back as they were saved.
   */
  lemma SanitizeSavedExam(e: Exam, now: nat, index: nat)
    requires e.id != "" && e.name != ""
    ensures SanitizedExam(Saved(e), now, index)
            == e.(sp := e.sp.(restTaken := 0, onRest := false, restStartTime := None,
                              readerWriterTaken := 0, onReaderWriter := false, readerWriterStartTime := None))
  {
  }

  /** An element that is not an object becomes the default exam with a generated id. */
  lemma SanitizeNotAnObject(now: nat, index: nat)
    ensures var r := SanitizedExam(NotAnObject, now, index);
            && r.id == GeneratedId(now, index) && r.name == "Untitled Exam"
            && r.status == Running && !r.isPaused && r.pauseDurationTotal == 0
            && r.readMins == 0 && r.writeHrs == 0 && r.writeMins == 0
            && r.startTime.None? && r.readEndTime.None? && r.writeEndTime.None?
  {
  }

  /**
   * `{ ...defaultExamShape, ...exam }` field by field: in a loaded record,
   * a present field is kept and a missing one takes the value it has in the
   * default exam that a non-object element becomes.
   */
  lemma SanitizePartialRecord(raw: RawExam, now: nat, index: nat)
    requires raw.RawRecord?
    ensures var e, d := SanitizedExam(raw, now, index), SanitizedExam(NotAnObject, now, index);
            && (raw.readMins.Some? ==> e.readMins == raw.readMins.value)
            && (raw.readMins.None? ==> e.readMins == d.readMins)
            && (raw.writeHrs.Some? ==> e.writeHrs == raw.writeHrs.value)
            && (raw.writeHrs.None? ==> e.writeHrs == d.writeHrs)
            && (raw.writeMins.Some? ==> e.writeMins == raw.writeMins.value)
            && (raw.writeMins.None? ==> e.writeMins == d.writeMins)
            && (raw.optionalInfo.Some? ==> e.optionalInfo == raw.optionalInfo.value)
            && (raw.optionalInfo.None? ==> e.optionalInfo == d.optionalInfo)
            && (raw.hasAccessCode.Some? ==> e.hasAccessCode == raw.hasAccessCode.value)
            && (raw.hasAccessCode.None? ==> e.hasAccessCode == d.hasAccessCode)
            && (raw.accessCode.Some? ==> e.accessCode == raw.accessCode.value)
            && (raw.accessCode.None? ==> e.accessCode == d.accessCode)
            && (raw.status.Some? ==> e.status == raw.status.value)
            && (raw.status.None? ==> e.status == d.status)
            && (raw.isPaused.Some? ==> e.isPaused == raw.isPaused.value)
            && (raw.isPaused.None? ==> e.isPaused == d.isPaused)
            && (raw.pauseDurationTotal.Some? ==> e.pauseDurationTotal == raw.pauseDurationTotal.value)
            && (raw.pauseDurationTotal.None? ==> e.pauseDurationTotal == d.pauseDurationTotal)
            && e.readEndTime == raw.readEndTime && e.writeEndTime == raw.writeEndTime
            && (raw.readEndTime.None? ==> e.readEndTime == d.readEndTime)
            && (raw.writeEndTime.None? ==> e.writeEndTime == d.writeEndTime)
  {
  }

  /**
   * `{ ...defaultSp, ...loadedSp }` for the settings a loaded record carries:
   * a present one is kept and a missing one takes its default.
   */
  lemma SanitizeProvisionSettings(raw: RawProvisions)
    ensures var p, d := SanitizedProvisions(Some(raw)), SanitizedProvisions(None);
            && (raw.studentName.Some? ==> p.studentName == raw.studentName.value)
            && (raw.studentName.None? ==> p.studentName == d.studentName == "")
            && (raw.showStudentName.Some? ==> p.showStudentName == raw.showStudentName.value)
            && (raw.showStudentName.None? ==> p.showStudentName == d.showStudentName == false)
            && (raw.restBreaks.Some? ==> p.restBreaks == raw.restBreaks.value)
            && (raw.restBreaks.None? ==> p.restBreaks == d.restBreaks == 0)
            && (raw.readerWriterTime.Some? ==> p.readerWriterTime == raw.readerWriterTime.value)
            && (raw.readerWriterTime.None? ==> p.readerWriterTime == d.readerWriterTime == 0)
  {
  }

  /** Ids generated in one import for different positions are different. */
  lemma GeneratedIdsDistinct(now: nat, i: nat, j: nat)
    requires i != j
    ensures GeneratedId(now, i) != GeneratedId(now, j)
  {
    var prefix := "loaded-" + NatToString(now) + "-";
    assert GeneratedId(now, i) == prefix + NatToString(i);
    assert GeneratedId(now, j) == prefix + NatToString(j);
    if GeneratedId(now, i) == GeneratedId(now, j) {
      assert NatToString(i) == (prefix + NatToString(i))[|prefix|..];
      assert NatToString(j) == (prefix + NatToString(j))[|prefix|..];
      NatToStringInjective(i, j);
    }
  }
}
