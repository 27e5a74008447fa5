/**
 * The request-field validators: e-mail shape, password length, future date
 * and 24-hour clock time. Each is a total, side-effect-free predicate.
 */
module Validators {
  import opened Common
  import opened Seqs

  const MIN_PASSWORD_LENGTH: nat := 6

  // ---------------------------------------------------------------- e-mail

  /** The characters of the regular-expression class `\s`: the ECMAScript
      white-space and line-terminator code points. */
  predicate IsSpace(c: char) {
    || c == '\t' || c == '\n' || c == '\U{B}' || c == '\U{C}' || c == '\r' || c == ' '
    || c == '\U{A0}' || c == '\U{1680}' || ('\U{2000}' <= c <= '\U{200A}')
    || c == '\U{2028}' || c == '\U{2029}' || c == '\U{202F}' || c == '\U{205F}'
    || c == '\U{3000}' || c == '\U{FEFF}'
  }

  /** The class `[^\s@]`. */
  predicate EmailChar(c: char) {
    !IsSpace(c) && c != '@'
  }

  /** Every character of `s` from index `lo` up to (not including) `hi` is in `[^\s@]`. */
  predicate EmailCharsIn(s: string, lo: int, hi: int)
    requires 0 <= lo && hi <= |s|
  {
    forall i :: lo <= i < hi ==> EmailChar(s[i])
  }

  /** The test `/^[^\s@]+@[^\s@]+\.[^\s@]+$/`: a non-empty local part before
      the first `@`, and after it a rest free of white space and `@` with a dot
      that is neither its first nor its last character. */
  function IsValidEmail(email: string): bool {
    var at := IndexOf(email, '@');
    && 0 < at && at + 2 < |email|
    && EmailCharsIn(email, 0, at)
    && EmailCharsIn(email, at + 1, |email|)
    && '.' in email[at + 2..|email| - 1]
  }

  /** The language of the e-mail pattern, written as the pattern reads:
      `L@D.T` with L, D and T non-empty and free of white space and `@`
      (D and T may hold further dots). */
  ghost predicate EmailShape(s: string) {
    exists at, dot ::
      && 0 < at && at + 1 < dot && dot + 1 < |s|
      && s[at] == '@' && s[dot] == '.'
      && EmailCharsIn(s, 0, at) && EmailCharsIn(s, at + 1, dot) && EmailCharsIn(s, dot + 1, |s|)
  }

  /** Whatever `IsValidEmail` accepts has the shape `L@D.T`. */
  lemma ValidEmailHasShape(email: string)
    requires IsValidEmail(email)
    ensures EmailShape(email)
  {
    var at := IndexOf(email, '@');
    var inner := email[at + 2..|email| - 1];
    var dot := at + 2 + IndexOf(inner, '.');
    assert email[dot] == inner[dot - at - 2] == '.';
    assert EmailCharsIn(email, at + 1, dot) && EmailCharsIn(email, dot + 1, |email|);
  }

  /** `IsValidEmail` accepts every string of the shape `L@D.T`. */
  lemma ShapeIsValidEmail(email: string)
    requires EmailShape(email)
    ensures IsValidEmail(email)
  {
    var a, dot :|
      && 0 < a && a + 1 < dot && dot + 1 < |email|
      && email[a] == '@' && email[dot] == '.'
      && EmailCharsIn(email, 0, a) && EmailCharsIn(email, a + 1, dot) && EmailCharsIn(email, dot + 1, |email|);
    var at := IndexOf(email, '@');
    assert EmailChar(email[dot]);
    assert EmailCharsIn(email, a + 1, |email|);
    assert email[a + 2..|email| - 1][dot - a - 2] == '.';
  }

  // ---------------------------------------------------------------- password

  /** `password.length >= 6`. */
  function IsValidPassword(password: string): (r: bool)
    ensures r <==> |password| >= MIN_PASSWORD_LENGTH
  {
    MIN_PASSWORD_LENGTH <= |password|
  }

  // ---------------------------------------------------------------- date

  /** `new Date(s)` is a valid date lying strictly after `now`. The date parser
      and the clock are parameters: `parse` gives the instant a string denotes
      (None for an invalid date) and `now` the current instant. */
  function IsValidDate(dateString: string, parse: string -> Option<int>, now: int): (r: bool)
    ensures r ==> parse(dateString).Some?
    ensures parse(dateString).Some? ==> (r <==> parse(dateString).value > now)
  {
    match parse(dateString)
    case None => false
    case Some(instant) => instant > now
  }

  // ---------------------------------------------------------------- time

  predicate IsDigit(c: char) {
    '0' <= c <= '9'
  }

  /** The hour alternative `([01]?[0-9]|2[0-3])`. */
  predicate HourPart(h: string) {
    || (|h| == 1 && IsDigit(h[0]))
    || (|h| == 2 && (h[0] == '0' || h[0] == '1') && IsDigit(h[1]))
    || (|h| == 2 && h[0] == '2' && '0' <= h[1] <= '3')
  }

  /** The test `/^([01]?[0-9]|2[0-3]):[0-5][0-9]$/`: an hour part, a colon and
      exactly two minute digits, the first of them at most 5. */
  predicate IsValidTime(s: string) {
    var colon := |s| - 3;
    && (colon == 1 || colon == 2)
    && HourPart(s[..colon])
    && s[colon] == ':'
    && '0' <= s[colon + 1] <= '5'
    && IsDigit(s[colon + 2])
  }

  function DigitChar(d: int): char
    requires 0 <= d <= 9
  {
    ('0' as int + d) as char
  }

  function DigitValue(c: char): int {
    c as int - '0' as int
  }

  /** The reference reading of a clock time: `hour`:`minute` written with one
      or two hour digits and exactly two minute digits. */
  function Clock(hour: int, minute: int, twoDigitHour: bool): string
    requires 0 <= hour <= 23 && 0 <= minute <= 59
    requires twoDigitHour || hour <= 9
  {
    (if twoDigitHour then [DigitChar(hour / 10), DigitChar(hour % 10)] else [DigitChar(hour)])
    + [':', DigitChar(minute / 10), DigitChar(minute % 10)]
  }

  /** Every time of day from 0:00 to 23:59 is accepted, with a padded hour
      and, below 10 o'clock, with a single hour digit too. */
  lemma ClockIsValidTime(hour: int, minute: int, twoDigitHour: bool)
    requires 0 <= hour <= 23 && 0 <= minute <= 59
    requires twoDigitHour || hour <= 9
    ensures IsValidTime(Clock(hour, minute, twoDigitHour))
  {
    var s := Clock(hour, minute, twoDigitHour);
    if twoDigitHour {
      assert s[..2] == [DigitChar(hour / 10), DigitChar(hour % 10)];
      assert HourPart(s[..2]);
    } else {
      assert s[..1] == [DigitChar(hour)];
    }
  }

  /** Every accepted string is a clock time with hour 0..23 and minute 0..59. */
  lemma ValidTimeIsClock(s: string)
    requires IsValidTime(s)
    ensures exists hour, minute, twoDigitHour ::
              && 0 <= hour <= 23 && 0 <= minute <= 59 && (twoDigitHour || hour <= 9)
              && Clock(hour, minute, twoDigitHour) == s
  {
    var colon := |s| - 3;
    var minute := 10 * DigitValue(s[colon + 1]) + DigitValue(s[colon + 2]);
    var hour := if colon == 1 then DigitValue(s[0]) else 10 * DigitValue(s[0]) + DigitValue(s[1]);
    var two := colon == 2;
    assert DigitChar(minute / 10) == s[colon + 1] && DigitChar(minute % 10) == s[colon + 2];
    if two {
      assert s[..2] == s[..colon];
      assert DigitChar(hour / 10) == s[0] && DigitChar(hour % 10) == s[1];
    }
    assert Clock(hour, minute, two) == s;
  }

  /** Examples of the time grammar. */
  lemma TimeExamples()
    ensures IsValidTime("23:59") && IsValidTime("09:05") && IsValidTime("9:05")
    ensures !IsValidTime("24:00") && !IsValidTime("9:5")
  {
    assert "23:59"[..2] == "23";
    assert "09:05"[..2] == "09";
    assert "9:05"[..1] == "9";
    assert "24:00"[..2] == "24";
  }
}
