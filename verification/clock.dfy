/**
 * Wall-clock strings: the "HH:MM" rendering shared by the day and week views'
 * `formatTime` and by `format(…, 'HH:mm')`, and the modal's submit-time
 * parsing `time.split(':').map(Number)`.
 */
module Clock {
  import opened Options
  import opened Text
  import opened Dates

  /** `formatTime(hour, minute)`: both numbers zero-padded to two digits, joined by ':'. */
  function FormatTime(hour: nat, minute: nat): (s: string)
    ensures hour < 100 && minute < 100 ==> |s| == 5 && s[2] == ':'
  {
    PadStart2(hour) + ":" + PadStart2(minute)
  }

  /** A digit string contains no ':'. */
  lemma NoColonInDigits(s: string)
    requires AllDigits(s)
    ensures ':' !in s
  {
    assert forall i :: 0 <= i < |s| ==> s[i] != ':' by {
      assert forall i :: 0 <= i < |s| ==> IsDigit(s[i]);
    }
  }

  /** Two digit strings joined by ':' split back into exactly those two fields. */
  lemma SplitJoined(h: string, m: string)
    requires AllDigits(h) && AllDigits(m)
    ensures ParseTime(h + ":" + m) == ReadFields(h, m)
  {
    var s := h + ":" + m;
    NoColonInDigits(h);
    NoColonInDigits(m);
    assert s[..|h|] == h && s[|h| + 1..] == m;
    IndexOfFirst(s, ':', |h|);
  }

  /** Digit fields of known values, joined by ':', parse to that many hours and minutes. */
  lemma ParseFields(h: string, m: string, hour: nat, minute: nat)
    requires AllDigits(h) && AllDigits(m)
    requires DigitsValue(h) == hour && DigitsValue(m) == minute
    ensures ParseTime(h + ":" + m) == Some(hour * 60 + minute)
  {
    SplitJoined(h, m);
    var r := ReadFields(h, m);
    assert r.Some? && r.value == hour * 60 + minute;
  }

  /** Parsing a formatted time gives back the hour and minute it was built from. */
  lemma FormatParseRoundTrip(hour: nat, minute: nat)
    ensures ParseTime(FormatTime(hour, minute)) == Some(hour * 60 + minute)
  {
    assert FormatTime(hour, minute) == PadStart2(hour) + ":" + PadStart2(minute);
    PadStart2Value(hour);
    PadStart2Value(minute);
    ParseFields(PadStart2(hour), PadStart2(minute), hour, minute);
  }

  /** `format(t, 'HH:mm')` for a time of day. */
  function FormatHHmm(m: MinuteOfDay): (s: string)
    ensures |s| == 5 && s[2] == ':'
  {
    FormatTime(m / 60, m % 60)
  }

  /** A time of day formatted as "HH:mm" reads back as that time. */
  lemma FormatHHmmParses(m: MinuteOfDay)
    ensures ParseTime(FormatHHmm(m)) == Some(m)
  {
    var hour, minute := m / 60, m % 60;
    assert hour * 60 + minute == m;
    assert FormatHHmm(m) == FormatTime(hour, minute);
    FormatParseRoundTrip(hour, minute);
  }

  /** The minute field: the text up to the next ':' or to the end. */
  function MinuteField(rest: string): (r: string)
    ensures ':' !in rest ==> r == rest
  {
    match IndexOf(rest, ':')
    case None => rest
    case Some(j) => rest[..j]
  }

  /** `Number` on both fields: `None` when either holds a non-digit, an empty field reading as 0. */
  function ReadFields(hourText: string, minuteText: string): (r: Option<nat>)
    ensures r.Some? <==> AllDigits(hourText) && AllDigits(minuteText)
    ensures r.Some? ==> r.value == DigitsValue(hourText) * 60 + DigitsValue(minuteText)
  {
    if AllDigits(hourText) && AllDigits(minuteText) then
      Some(DigitsValue(hourText) * 60 + DigitsValue(minuteText))
    else
      None
  }

  /**
   * `const [h, m] = s.split(':').map(Number)` followed by `setHours(h, m)`:
   * minutes after midnight. The hour is the text before the first ':', the
   * minute the text between it and the next ':' (or the end). A part with a
   * character other than a decimal digit makes `Number` yield NaN, and a
   * missing ':' leaves the minute undefined; both are `None`.
   */
  function ParseTime(s: string): (r: Option<nat>)
    ensures r.Some? ==> ':' in s
  {
    match IndexOf(s, ':')
    case None => None
    case Some(i) => ReadFields(s[..i], MinuteField(s[i + 1..]))
  }

  /** A zero-padded and an unpadded hour read the same: "9:00" and "09:00" are both 9 o'clock. */
  lemma PaddingIgnored(hour: nat, minute: nat)
    requires hour < 10 && minute < 60
    ensures ParseTime(DecimalString(hour) + ":" + PadStart2(minute)) == ParseTime(FormatTime(hour, minute)) == Some(hour * 60 + minute)
  {
    DecimalStringValue(hour);
    PadStart2Value(minute);
    ParseFields(DecimalString(hour), PadStart2(minute), hour, minute);
    FormatParseRoundTrip(hour, minute);
  }
}
