/**
 * `formatTime` of src/utils/time.ts: a millisecond count shown as `H:MM:SS`
 * when it reaches an hour, and as `MM:SS` otherwise.
 */
module Time {
  import opened Digits

  /** Whole seconds in `ms`, after negative counts are clamped to zero. */
  function TotalSeconds(ms: int): nat {
    if ms < 0 then 0 else ms / 1000
  }

  /** The hour, minute and second fields that `formatTime` prints. */
  function TimeParts(ms: int): (parts: (nat, nat, nat))
    ensures parts.1 < 60 && parts.2 < 60
    ensures parts.0 * 3600 + parts.1 * 60 + parts.2 == TotalSeconds(ms)
  {
    var t := TotalSeconds(ms);
    var h, rest := t / 3600, t % 3600;
    assert rest % 60 == t % 60 by {
      assert t == (h * 60 + rest / 60) * 60 + rest % 60;
    }
    (h, rest / 60, t % 60)
  }

  /** `formatTime`: `H:MM:SS` from an hour on, `MM:SS` below it, with the seconds field always last. */
  function FormatTime(ms: int): (r: string)
    ensures |r| >= 5 && r[|r| - 3] == ':'
    ensures TimeParts(ms).0 == 0 <==> |r| == 5
  {
    var (hours, minutes, seconds) := TimeParts(ms);
    if hours > 0 then NatToString(hours) + ":" + Pad2(minutes) + ":" + Pad2(seconds)
    else Pad2(minutes) + ":" + Pad2(seconds)
  }

  /** A negative count is shown as zero. */
  lemma FormatTimeClampsNegative(ms: int)
    requires ms < 0
    ensures FormatTime(ms) == FormatTime(0) == "00:00"
  {
    assert FormatTime(0) == Pad2(0) + ":" + Pad2(0);
  }

  /**
   * The layout of the text: below an hour exactly `MM:SS`; from an hour on,
   * the unpadded hour count (no leading zero) then `:MM:SS`. Each field reads
   * back as the number it shows.
   */
  lemma FormatTimeShape(ms: int)
    ensures var (h, m, s) := TimeParts(ms);
            var r := FormatTime(ms);
            && |r| >= 5
            && r[|r| - 3] == ':'
            && IsDigits(r[|r| - 5..|r| - 3]) && ParseNat(r[|r| - 5..|r| - 3]) == m
            && IsDigits(r[|r| - 2..]) && ParseNat(r[|r| - 2..]) == s
            && (h == 0 <==> |r| == 5)
            && (h > 0 ==>
                  && |r| >= 7 && r[|r| - 6] == ':' && r[0] != '0'
                  && IsDigits(r[..|r| - 6]) && ParseNat(r[..|r| - 6]) == h)
  {
    var (h, m, s) := TimeParts(ms);
    var r := FormatTime(ms);
    var mm, ss := Pad2(m), Pad2(s);
    if h > 0 {
      var hh := NatToString(h);
      assert r == hh + ":" + mm + ":" + ss;
      assert r[..|r| - 6] == hh;
      assert r[|r| - 5..|r| - 3] == mm;
      assert r[|r| - 2..] == ss;
      ParseNatToString(h);
    } else {
      assert r == mm + ":" + ss;
      assert r[|r| - 5..|r| - 3] == mm;
      assert r[|r| - 2..] == ss;
    }
  }

  /** A field of the text read as a number; text that is not a digit string reads as 0. */
  function ReadField(s: string): nat {
    if IsDigits(s) then ParseNat(s) else 0
  }

  /** Reads the hour, minute and second fields back from a `formatTime` text. */
  function ReadTime(r: string): (nat, nat, nat) {
    if |r| < 5 then (0, 0, 0)
    else (if |r| >= 6 then ReadField(r[..|r| - 6]) else 0, ReadField(r[|r| - 5..|r| - 3]), ReadField(r[|r| - 2..]))
  }

  /** The text round-trips: reading it back gives the fields it was made from. */
  lemma ReadFormatTime(ms: int)
    ensures ReadTime(FormatTime(ms)) == TimeParts(ms)
  {
    FormatTimeShape(ms);
  }

  /**
   * Two counts are shown alike exactly when they fall in the same whole
   * second (all negative counts falling in second zero).
   */
  lemma FormatTimeSameText(a: int, b: int)
    ensures FormatTime(a) == FormatTime(b) <==> TotalSeconds(a) == TotalSeconds(b)
  {
    if FormatTime(a) == FormatTime(b) {
      ReadFormatTime(a);
      ReadFormatTime(b);
      assert TimeParts(a) == TimeParts(b);
    }
  }
}
