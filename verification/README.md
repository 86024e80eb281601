# Examination timer: session timing engine in Dafny

This project models the timing core of an examination-timer web application.
Invigilators set up a list of exams, each with a reading period, a writing
period and optional special provisions: extra time, rest breaks and
reader/writer assistance. They then run a live session. During the session
every exam's reading-end and writing-end instants are derived from one shared
start instant plus four additive delays:

- the session-wide pause;
- the exam's own pause;
- rest taken;
- reader/writer time taken.

Each delay counts both the time banked so far and the part still in progress.

The model covers:

- `wrappers.dfy`: `Option`, which stands for TypeScript's `number | null` and for absent fields.
- `digits.dfy`: decimal text of non-negative integers (`String(n)`, `padStart(2, '0')`) and its parse back.
- `time.dfy`: `formatTime`, which shows milliseconds as `H:MM:SS` or `MM:SS`.
- `access_code.dfy`: `formatAccessCode`, which cleans a test access code and lays out NAPLAN codes as `xxx-xx-xxx`.
- `exams.dfy`: the exam record, plus the timing rules as functions:
  - the delays and the recalculation of one exam and of the list;
  - the per-exam effect of pause, resume, rest, reader/writer, end-of-session and finish;
  - the list operations the reducer uses (find, name filter, id filter, move).
- `timing.dfy`: lemmas about those functions:
  - terminal exams are never touched;
  - the end-time formula, and reading ends no later than writing;
  - recalculation is idempotent;
  - each pause, rest break or reader/writer session moves the end times by exactly its length;
  - any history of such intervals banks exactly the sum of their lengths.
- `sanitize.dfy`: `sanitizeLoadedExams`, the import boundary.
- `app_context.dfy`: the reducer as the class `AppState`. Its fields are the session state. It has one method per timing or list case of `appReducer`, plus `recalculateAllExamEndTimes` and `addLogEntry`. Each method states its whole new state in terms of the old one and the functions of `exams.dfy`.
- `scenarios.dfy`: six worked sessions driven only through the contracts of `AppState`:
  - going live gives an exam its start and both end times;
  - pausing one exam records the pause start and leaves its end times where they were;
  - resuming it five minutes later moves both of its end times five minutes later;
  - abandoning one of two exams in a live session (reached through `StartLiveSession` in `LivePair`) leaves its times and the other exam's times as they were, and logs the abandonment after the start entry;
  - a session-wide pause of three minutes moves the running exam by three minutes and leaves the abandoned one as it was;
  - pausing with an empty exam id pauses the whole session and leaves every exam as it was.

`Date.now()` becomes a `now` parameter of each event. The code treats an
instant of `0` like `null`, because it uses `||` and truthiness tests. The model
keeps this in `Exams.Truthy` and `Exams.OrElse`, and `Exams.ZeroInstantIsAbsent` states its effect.
In the same way, `if (examId)` treats an empty exam id like a missing one: `AppContext.IsExamTarget`
is that test, and the pause and resume events address the whole session when it is false.

Several behaviours of the code differ from what one might expect. The model
follows the code in each case:

- `RESUME_SESSION` recalculates in examinations mode even when nothing was paused and even when the session is not live.
- `FINISH_EXAM` only skips exams that are already `finished`, so an abandoned exam can become finished.
- `END_SESSION` without `shouldReset` clears the pause and provision flags and the banked provision time. It keeps every exam's pause start and pause total, the session's own pause start and total, and the rest and reader/writer start instants. (With `shouldReset` the whole initial state comes back, exams and session pause fields included.) `START_LIVE_SESSION` clears none of these either. As a result, after an end without reset, the pauses of one session still delay the exams of the next (`Timing.EndedExamKeepsPauseHistory`).
- `PAUSE_SESSION` overwrites the pause start even when the target is already paused. It does not recalculate.
- Importing resets only the special-provision state. An exam's own `isPaused` and `pauseStartTime`, its status and its derived times come back as they were saved (`Sanitize.SanitizeSavedExam`).
- `START_LIVE_SESSION` stamps the start time on finished and abandoned exams too. The recalculation that follows leaves their end times alone.

## Model

| member | source | states |
|---|---|---|
| `Digits.NatToString` | src/utils/time.ts:10 | `String(n)`: non-empty decimal digits, no leading zero unless n is 0; one digit exactly when n < 10, two when 10 <= n < 100 |
| `Digits.ParseNatToString` | src/utils/time.ts:10 | reading the decimal text of n back gives n |
| `Digits.NatToStringInjective` | src/utils/time.ts:10 | different numbers have different texts |
| `Digits.Pad2` | src/utils/time.ts:10-12 | `padStart(2, '0')` of a number below 100 is exactly two digits that read back as the number |
| `Time.TimeParts` | src/utils/time.ts:3-7 | minutes and seconds are below 60, and hours*3600 + minutes*60 + seconds equals the clamped whole seconds of the input |
| `Time.FormatTime` | src/utils/time.ts:2-13 | `formatTime`: at least five characters with the seconds field last after a colon, and exactly five (`MM:SS`) when the hour count is 0; the rest of the layout is `FormatTimeShape` |
| `Time.FormatTimeClampsNegative` | src/utils/time.ts:3 | every negative input is shown like 0, as `00:00` |
| `Time.FormatTimeShape` | src/utils/time.ts:9-12 | below an hour the text is exactly `MM:SS`; from an hour on it is the unpadded hour count (no leading zero), then `:MM:SS`; each field reads back as the hour, minute and second count |
| `Time.ReadFormatTime` | src/utils/time.ts:3-12 | reading the hour, minute and second fields back from the text gives exactly the fields it was made from |
| `Time.FormatTimeSameText` | src/utils/time.ts:4 | two inputs give the same text if and only if they have the same clamped whole-second count |
| `AccessCode.Clean` | src/components/setup/ExamCard.tsx:35 | the cleaned code holds only A-Z and 0-9 and is no longer than the input |
| `AccessCode.CleanAppend` | src/components/setup/ExamCard.tsx:35 | cleaning works character by character: it distributes over concatenation |
| `AccessCode.CleanChar` | src/components/setup/ExamCard.tsx:35 | a lower-case letter is upper-cased, an upper-case letter or digit is kept, any other character is dropped |
| `AccessCode.CleanKeepsCode` | src/components/setup/ExamCard.tsx:35 | a string of A-Z and 0-9 is left unchanged |
| `AccessCode.Substring` | src/components/setup/ExamCard.tsx:40-42 | `substring` with both ends clamped: the exact slice when the end is within the string, never longer than end - start, and empty exactly when the range is empty or starts at or past the end |
| `AccessCode.JoinNonEmpty` | src/components/setup/ExamCard.tsx:44 | `filter(p => p).join('-')`: the result is empty exactly when every part is empty |
| `AccessCode.FormatAccessCode` | src/components/setup/ExamCard.tsx:33-49 | `formatAccessCode`, under any title: the text is empty exactly when nothing of the code survives cleaning; its layout is stated by the lemmas below |
| `AccessCode.FormatAccessCodeOther` | src/components/setup/ExamCard.tsx:47-48 | for any title but NAPLAN the result is the cleaned code, and it has no hyphen |
| `AccessCode.JoinNonEmptyThree` | src/components/setup/ExamCard.tsx:44 | joining three groups: empty groups contribute neither text nor a hyphen |
| `AccessCode.FormatAccessCodeNaplan` | src/components/setup/ExamCard.tsx:37-44 | NAPLAN layout by cleaned length: up to 3 as is, up to 5 as `xxx-xx`, otherwise `xxx-xx-xxx` with the last group cut at the eighth character |
| `AccessCode.FormatAccessCodeNaplanDigits` | src/components/setup/ExamCard.tsx:38-44 | for NAPLAN, removing the hyphens gives the first min(8, length) characters of the cleaned code |
| `AccessCode.FormatAccessCodeNaplanHyphens` | src/components/setup/ExamCard.tsx:39-44 | for NAPLAN the text is at most 10 characters, hyphens stand exactly at positions 3 and 6 when present, and none leads, trails or is doubled |
| `AccessCode.FormatAccessCodeIdempotent` | src/components/setup/ExamCard.tsx:33-49 | formatting an already cleaned code gives the same text as formatting the original, under any title |
| `AccessCode.FormatAccessCodeAlphabet` | src/components/setup/ExamCard.tsx:33-49 | the result holds only A-Z, 0-9 and `-` |
| `Exams.ZeroInstantIsAbsent` | src/context/AppContext.tsx:13-36 | an instant of 0 counts as absent: a pause, rest or reader/writer start of 0 adds nothing in progress, and a first start time of 0 makes the session start `now`, as a missing one does |
| `Exams.Offset` | src/context/AppContext.tsx:16-36 | a delay is its banked total, plus now - start only when it is active and its start is truthy; a missing or zero start adds nothing in progress |
| `Exams.SessionStart` | src/context/AppContext.tsx:13 | the shared start is `now` or the first exam's recorded non-zero start, and it is the latter whenever that start is truthy |
| `Exams.RecalculatedExam` | src/context/AppContext.tsx:19-43 | one pass over one exam: a terminal exam is returned as it was; otherwise it starts at the shared start and writing ends its writing period after reading ends (the read-end formula, and that no other field changes, are stated by `Timing.RecalculatedEndTimes`) |
| `Exams.Recalculated` | src/context/AppContext.tsx:18-44 | the recalculated list has one exam per input exam (the per-exam rule is stated by the `Timing` lemmas) |
| `Exams.Paused` | src/context/AppContext.tsx:382-383 | pausing sets the flag and records `now` as the pause start, even over an earlier start; nothing else changes |
| `Exams.Resumed` | src/context/AppContext.tsx:399-401 | resuming adds exactly now - pauseStart to the pause total and clears the flag and the start; nothing else changes |
| `Exams.RestToggled` | src/context/AppContext.tsx:432-441 | the rest flag flips; entering records `now`; leaving banks the elapsed rest time and clears the start; nothing outside the three rest fields changes |
| `Exams.ReaderWriterToggled` | src/context/AppContext.tsx:452-461 | the same rule on the reader/writer fields |
| `Exams.EndedExam` | src/context/AppContext.tsx:292-299 | ending a session sets the exam running and clears isPaused, onRest, onReaderWriter, restTaken and readerWriterTaken; configuration, pause start, pause total, provision starts and derived times are kept |
| `Exams.Stamped` | src/context/AppContext.tsx:275-277 | every exam gets `startTime = now`, and nothing else changes |
| `Exams.FindExam` | src/context/AppContext.tsx:380 | `find`/`findIndex` by id: the index of the first exam with that id, or none when no exam has it |
| `Exams.FreshByName` | src/context/AppContext.tsx:212-214 | an exam is kept exactly when it is in the payload and no existing exam has its name |
| `Exams.FreshByNameAppend` | src/context/AppContext.tsx:212-215 | the name filter distributes over concatenation, so the kept payload exams keep their order, repeats included |
| `Exams.WithoutId` | src/context/AppContext.tsx:227 | an exam is kept exactly when it is in the list and its id differs; an absent id leaves the list unchanged |
| `Exams.WithoutIdAppend` | src/context/AppContext.tsx:227 | the id filter distributes over concatenation, so the kept exams keep their order |
| `Exams.Moved` | src/context/AppContext.tsx:237-239 | the two splices give a permutation of the list with the moved exam at `newIndex`, or last when `newIndex` is past the end, and the other exams keep their relative order |
| `Exams.FindExamSameIds` | src/context/AppContext.tsx:469 | the lookup depends on the ids alone, so changing a status does not change which exam is found |
| `Exams.FinishTarget` | src/context/AppContext.tsx:469-470 | the exam `FINISH_EXAM` changes is the first exam with the id, exactly when there is one and it is not already finished |
| `Exams.FinishedExams` | src/context/AppContext.tsx:468-475 | finishing keeps the number of exams; what it changes is stated by `FinishedExamsEffect` |
| `Exams.FinishedExamsEffect` | src/context/AppContext.tsx:468-475 | the first exam with the id becomes finished, abandoned or not, with no other field and no other exam changed; an unknown id changes nothing |
| `Exams.FinishIdempotent` | src/context/AppContext.tsx:468-475 | finishing twice is finishing once, and the second time there is no exam to change and nothing to log |
| `Timing.RecalculatedKeepsTerminal` | src/context/AppContext.tsx:18-24 | a finished or abandoned exam leaves the recalculation exactly as it entered, times included |
| `Timing.RecalculatedEndTimes` | src/context/AppContext.tsx:13-43 | any other exam: start = `exams[0].startTime \|\| now`; readEnd = start + readMins*60000 + global pause + exam pause + rest + reader/writer (each banked plus in progress); writeEnd = readEnd + (writeHrs*60 + writeMins + extraTime)*60000; no other field changes |
| `Timing.RecalculatedReadBeforeWrite` | src/context/AppContext.tsx:42-43 | with non-negative writing durations, readEnd <= writeEnd |
| `Timing.SessionStartRecalculated` | src/context/AppContext.tsx:13 | the shared start instant is the same after a recalculation as before |
| `Timing.RecalculatedIdempotent` | src/context/AppContext.tsx:9-45 | recalculating twice at the same instant gives the same list as recalculating once |
| `Timing.GlobalPauseShifts` | src/context/AppContext.tsx:16-43 | adding d to the global pause moves each running exam's reading and writing end by d and leaves terminal exams untouched |
| `Timing.ResumeKeepsEndTimes` | src/context/AppContext.tsx:393-416 | resuming at `now` does not move end times computed at `now`: the in-progress pause becomes banked pause |
| `Timing.PauseResumeShifts` | src/context/AppContext.tsx:376-416 | an exam paused at t1 and resumed at t2 ends t2 - t1 later, in both reading and writing |
| `Timing.RestBreakShifts` | src/context/AppContext.tsx:428-447 | a rest break from t1 to t2 moves both end times by t2 - t1 |
| `Timing.ReaderWriterShifts` | src/context/AppContext.tsx:448-467 | a reader/writer session from t1 to t2 moves both end times by t2 - t1 |
| `Timing.RestToggleTwice` | src/context/AppContext.tsx:432-441 | rest on at t1 then off at t2 banks t2 - t1, clears the start and changes nothing else |
| `Timing.ReaderWriterToggleTwice` | src/context/AppContext.tsx:452-461 | reader/writer on at t1 then off at t2 banks t2 - t1, clears the start and changes nothing else |
| `Timing.PauseHistoryTotal` | src/context/AppContext.tsx:376-416 | after any number of pause/resume cycles the pause total has grown by exactly the sum of their lengths, and nothing else differs |
| `Timing.RestHistoryTotal` | src/context/AppContext.tsx:432-441 | after any number of rest breaks the rest taken has grown by exactly the sum of their lengths |
| `Timing.ReaderWriterHistoryTotal` | src/context/AppContext.tsx:452-461 | after any number of reader/writer sessions the time taken has grown by exactly the sum of their lengths |
| `Timing.StartLiveTimes` | src/context/AppContext.tsx:271-278 | after going live every exam starts at `now`; running exams read until now + reading period + delays; terminal exams keep their end times |
| `Timing.EndedExamKeepsPauseHistory` | src/context/AppContext.tsx:292-299 | after a session ends, the next recalculation still adds the exam's old pause total to its reading end |
| `Sanitize.SanitizeLoadedExams` | src/context/AppContext.tsx:83-156 | a non-array gives no exams; otherwise element i becomes `SanitizedExam` of loaded element i, each with a non-empty id and name, and with rest and reader/writer off, no rest or reader/writer start instant, and nothing banked |
| `Sanitize.SanitizedExam` | src/context/AppContext.tsx:119-155 | one element: always a non-empty id and name; a present non-empty id is kept, otherwise `loaded-<now>-<index>`; a present non-empty name is kept, a missing one (or a non-object element) gives `Untitled Exam` and an empty one `Untitled Loaded Exam`; the pause start and start time are kept as loaded; the provisions are `SanitizedProvisions` of the loaded `sp`; every other field present in the record is kept and a missing one takes its default (`SanitizePartialRecord`) |
| `Sanitize.SanitizePartialRecord` | src/context/AppContext.tsx:86-124 | `{ ...defaultExamShape, ...exam }` field by field: in a loaded record each of reading, writing, information, access-code, status, pause and end-time fields is kept when present and otherwise equals the same field of the default exam a non-object element becomes |
| `Sanitize.SanitizedProvisions` | src/context/AppContext.tsx:133-143 | the six in-progress rest and reader/writer fields are off, zero and absent; a loaded extra time is kept, a missing one is 0 |
| `Sanitize.SanitizeProvisionSettings` | src/context/AppContext.tsx:133-136 | `{ ...defaultSp, ...loadedSp }` for the student name, its visibility, the rest-break allowance and the reader/writer allowance: a present value is kept, a missing one takes the default (empty, hidden, 0, 0) |
| `Sanitize.SanitizeSavedExam` | src/context/AppContext.tsx:119-155 | a saved exam with an id and a name loads back unchanged except for its six in-progress provision fields |
| `Sanitize.SanitizeNotAnObject` | src/context/AppContext.tsx:120-131 | an element that is not an object becomes the default exam named `Untitled Exam`, with a generated id |
| `Sanitize.GeneratedIdsDistinct` | src/context/AppContext.tsx:126-128 | ids generated in one import for different positions differ |
| `AppContext.AppState.constructor` | src/context/AppContext.tsx:54-76 | the initial state: setup page, examinations mode, not live, no pause, no auto-start target, no exams, empty log |
| `AppContext.Logged` | src/context/AppContext.tsx:47-51 | the log only grows: the old log is a prefix, one entry longer exactly when live, and that entry is the one given |
| `AppContext.AppState.RecalculateAllExamEndTimes` | src/context/AppContext.tsx:9-45 | the new list is `Recalculated` of the old one against the session pause at `now` |
| `AppContext.AppState.AddLogEntry` | src/context/AppContext.tsx:47-51 | the entry is appended when the session is live, and the log is unchanged otherwise |
| `AppContext.AppState.AddExam` | src/context/AppContext.tsx:210 | the exam is appended to the list |
| `AppContext.AppState.AddExams` | src/context/AppContext.tsx:211-217 | the old list stays as a prefix, followed by exactly the payload exams whose name it lacks |
| `AppContext.AppState.UpdateExam` | src/context/AppContext.tsx:218-225 | the first exam with the payload's id is replaced and the list recalculated when live in examinations mode; an unknown id changes nothing |
| `AppContext.AppState.DeleteExam` | src/context/AppContext.tsx:226-229 | the list loses exactly the exams with that id |
| `AppContext.AppState.ReorderExams` | src/context/AppContext.tsx:236-242 | the list is the old one with the exam moved (`Moved`), recalculated when live in examinations mode |
| `AppContext.AppState.StartLiveSession` | src/context/AppContext.tsx:264-281 | live and unpaused on the exam page with the log exactly one "commenced" entry; in examinations mode the auto-start target is cleared and the exams are stamped with `now` and recalculated |
| `AppContext.AppState.EndSession` | src/context/AppContext.tsx:282-305 | returns the log handed to the export (with the closing entry) when live; not live or paused, no auto-start target, empty log, every exam `EndedExam` of itself, the session pause fields kept; with `shouldReset`, the initial state |
| `AppContext.AppState.SetAutoStartTime` | src/context/AppContext.tsx:374 | the target instant is stored |
| `AppContext.AppState.CancelAutoStart` | src/context/AppContext.tsx:375 | the target instant is cleared |
| `AppContext.AppState.PauseSession` | src/context/AppContext.tsx:376-392 | the first exam with the id becomes `Paused`, or the session is paused from `now` when no id is given; logged when live; an unknown id changes nothing; no recalculation |
| `AppContext.AppState.ResumeSession` | src/context/AppContext.tsx:393-416 | a target with a truthy pause start is `Resumed` (the session one on its own fields); otherwise the pause fields are unchanged; in examinations mode the list is recalculated in either case |
| `AppContext.AppState.AbandonExam` | src/context/AppContext.tsx:417-427 | the first exam with the id becomes abandoned, logged, recalculated in examinations mode; an unknown id changes nothing |
| `AppContext.AppState.ToggleRestBreak` | src/context/AppContext.tsx:428-447 | the first exam with the id is `RestToggled`, the matching start or end is logged, recalculated in examinations mode; an unknown id changes nothing |
| `AppContext.AppState.ToggleReaderWriter` | src/context/AppContext.tsx:448-467 | the same for `ReaderWriterToggled` |
| `AppContext.AppState.FinishExam` | src/context/AppContext.tsx:468-475 | the list becomes `FinishedExams` of the old one, and one entry is logged exactly when an exam was changed |

## Left out

- Reducer cases outside the timing, log and exam-list events modelled here are left out: `SET_THEME`, `UPDATE_SETTINGS`, `TOGGLE_TOOLTIPS`, `TOGGLE_FONT_CONTROLS`, `TOGGLE_FONT_LOCK`, `TOGGLE_FABS`, `SET_ACTIVE_MODAL`, `SET_CONFIRM_ACTION`, `SET_EDITING_EXAM_ID`, `SET_DISRUPTION_TARGET` and `UPDATE_FONT_SIZE` with its 12-point floor, which touch only settings or interface state; and six cases that do write modelled fields. These six are:
  - `SET_SESSION_MODE`, which on a change of mode sets `sessionMode` and empties `exams` (src/context/AppContext.tsx:166-181);
  - `APPLY_SESSION_PRESET`, which may set `sessionMode` and may empty `exams` (191-209);
  - `CLEAR_ALL_EXAMS`, which empties `exams` (230);
  - `RESET_ALL`, which restores the whole initial state (231-235);
  - `IMPORT_SESSION`, which replaces `exams` with the imported ones, sets `sessionMode`, returns to the setup page and clears `isLive`, `isPaused`, `autoStartTargetTime` and `sessionLog` (243-258). It keeps the session's pause start and pause total, so an imported session still carries the earlier global pause;
  - `PREVIEW_EXAMS`, which shows the exam page and turns `isLive` off, mid-session included, without ending the session: no log is exported, and exam statuses and pauses stay as they were (259-263).
- The settings record and the interface state are not fields of `AppState`.
- `AppContext.AppState.EndSession`: with `shouldReset` the source also restores the default settings and interface state, keeping the theme and tooltip choice. The model restores only the modelled fields.
- `AppContext.AppState.EndSession`: `exportSessionLog` builds and downloads a text file from the settings, the log and the exams. The model only returns the log handed to it.
- The log's locale timestamp text (`toLocaleTimeString`) is dropped: entries are abstract values.
- The source reads `Date.now()` separately in a reducer case and in the recalculation it calls. The model uses one instant `now` per event.
- `AppContext.AppState.ReorderExams`: requires `oldIndex` to be a position in the list and both indices to be non-negative. For other indices, JavaScript's `splice` would insert `undefined` or count from the end. The only caller (src/components/setup/ExamList.tsx:28-29) passes the positions of a dragged list item.
- Numbers are mathematical integers: fractional milliseconds, `NaN`, and the 2^53 limit of JavaScript numbers are not modelled.
- `Sanitize.SanitizeLoadedExams`: assumes each present field has its declared type. JSON cannot produce a key holding `undefined`, and the model has no such key. So the `hasAccessCode` fallback at src/context/AppContext.tsx:150-152 never applies: a missing `hasAccessCode` is `false` from the defaults. JSON `null` and a missing field are the same for the instant fields. The source reads the clock once per element for the generated id; the model uses one `now` for the whole import.
- `init` and the save effect (`localStorage`), `formatClockTime`, `useTimer`, the auto-start polling, the automatic finish and toggle timers, wake lock and fullscreen are left out. They are I/O, timers or locale formatting.
- The per-render status projection of src/components/exam/ExamTimerCard.tsx is presentation logic, and src/hooks/useExamCalculations.ts is not used by the application. Neither is modelled.
- Nothing rejects a pause, a rest break and a reader/writer session being active at once for the same exam; the recalculation adds all of them. The source leaves this to the interface, and so does the model.
