/**
 * The draw code: the date of "now" in the configured time zone followed by the
 * hour and minute the scheduler passed in, `YYYYMMDD/HHMM`.
 */
module DrawCode {
  import opened Wrappers
  import opened Digits

  /** A calendar date as `datetime.now` supplies it (the model takes it as input). */
  datatype Date = Date(year: nat, month: nat, day: nat)

  /** Dates whose `%Y%m%d` rendering is eight digits. */
  predicate ValidDate(d: Date) {
    1000 <= d.year <= 9999 && 1 <= d.month <= 12 && 1 <= d.day <= 31
  }

  /** The trigger times the formatting supports: an hour of the day and a minute of the hour. */
  predicate ValidTime(hour: nat, minute: nat) {
    hour < 24 && minute < 60
  }

  /** The shape of every code: eight digits, a slash, four digits. */
  predicate WellFormedCode(code: string) {
    |code| == 13 && code[8] == '/' && AllDigits(code[..8]) && AllDigits(code[9..])
  }

  /** `now.strftime(f"%Y%m%d/{hour:02d}{minute:02d}")`. */
  function Code(d: Date, hour: nat, minute: nat): (code: string)
    requires ValidDate(d) && ValidTime(hour, minute)
    ensures WellFormedCode(code)
  {
    PadDigits(d.year, 4) + Pad2(d.month) + Pad2(d.day) + "/" + Pad2(hour) + Pad2(minute)
  }

  /** Reads a code back into its date, hour and minute; None when it is not shaped like a code. */
  function ParseCode(code: string): (r: Option<(Date, nat, nat)>)
    ensures r.Some? <==> WellFormedCode(code)
  {
    if WellFormedCode(code) then
      assert code[..4] == code[..8][..4] && code[4..6] == code[..8][4..6] && code[6..8] == code[..8][6..];
      assert code[9..11] == code[9..][..2] && code[11..] == code[9..][2..];
      Some((Date(DigitsValue(code[..4]), DigitsValue(code[4..6]), DigitsValue(code[6..8])),
            DigitsValue(code[9..11]), DigitsValue(code[11..])))
    else
      None
  }

  /** Every code parses back to the date and time it was made from. */
  lemma CodeRoundTrip(d: Date, hour: nat, minute: nat)
    requires ValidDate(d) && ValidTime(hour, minute)
    ensures ParseCode(Code(d, hour, minute)) == Some((d, hour, minute))
  {
    var code := Code(d, hour, minute);
    assert code[..4] == PadDigits(d.year, 4);
    assert code[4..6] == Pad2(d.month);
    assert code[6..8] == Pad2(d.day);
    assert code[9..11] == Pad2(hour);
    assert code[11..] == Pad2(minute);
    PadDigitsRoundTrip(d.year, 4);
    PadDigitsRoundTrip(d.month, 2);
    PadDigitsRoundTrip(d.day, 2);
    PadDigitsRoundTrip(hour, 2);
    PadDigitsRoundTrip(minute, 2);
  }

  /** A parsed code that names a valid date and time is exactly the code of that date and time. */
  lemma ParseCodeRoundTrip(code: string, d: Date, hour: nat, minute: nat)
    requires ParseCode(code) == Some((d, hour, minute))
    requires ValidDate(d) && ValidTime(hour, minute)
    ensures Code(d, hour, minute) == code
  {
    assert code[..4] == code[..8][..4] && code[4..6] == code[..8][4..6] && code[6..8] == code[..8][6..];
    assert code[9..11] == code[9..][..2] && code[11..] == code[9..][2..];
    DigitsValueRoundTrip(code[..4]);
    DigitsValueRoundTrip(code[4..6]);
    DigitsValueRoundTrip(code[6..8]);
    DigitsValueRoundTrip(code[9..11]);
    DigitsValueRoundTrip(code[11..]);
    assert code == code[..4] + code[4..6] + code[6..8] + [code[8]] + code[9..11] + code[11..];
  }

  /** Different trigger instants never share a code. */
  lemma CodeInjective(d1: Date, h1: nat, m1: nat, d2: Date, h2: nat, m2: nat)
    requires ValidDate(d1) && ValidTime(h1, m1)
    requires ValidDate(d2) && ValidTime(h2, m2)
    ensures Code(d1, h1, m1) == Code(d2, h2, m2) <==> (d1, h1, m1) == (d2, h2, m2)
  {
    CodeRoundTrip(d1, h1, m1);
    CodeRoundTrip(d2, h2, m2);
  }
}
