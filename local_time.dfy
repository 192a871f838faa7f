/**
 * The `HH:MM:SS[.mmm]` text that a `localTime` value is sent to the
 * database as: hours, minutes and seconds zero-padded to two digits, and a
 * dot with the milliseconds zero-padded to three digits only when the
 * milliseconds are not zero.
 */
module LocalTimeFormat {
  import opened Wrappers
  import opened JsValues
  import opened DecimalText

  datatype TimeOfDay = TimeOfDay(hours: nat, minutes: nat, seconds: nat, milliseconds: nat)

  predicate InRange(t: TimeOfDay) {
    t.hours < 24 && t.minutes < 60 && t.seconds < 60 && t.milliseconds < 1000
  }

  /** The local time-of-day getters of a date. */
  function TimeOf(d: JsDate): (t: TimeOfDay)
    ensures InRange(t) <==> TimeOfDayInRange(d)
  {
    TimeOfDay(d.hours, d.minutes, d.seconds, d.milliseconds)
  }

  /** The text sent to the database for a time of day. */
  function LocalTimeText(t: TimeOfDay): string {
    ZeroPad(t.hours, 2) + ":" + ZeroPad(t.minutes, 2) + ":" + ZeroPad(t.seconds, 2)
      + (if t.milliseconds > 0 then "." + ZeroPad(t.milliseconds, 3) else "")
  }

  /** An in-range time of day is written as exactly 8 or 12 characters,
      with the separators at fixed positions. */
  lemma LocalTimeTextShape(t: TimeOfDay)
    ensures InRange(t) ==> |LocalTimeText(t)| == (if t.milliseconds > 0 then 12 else 8)
    ensures InRange(t) ==> LocalTimeText(t)[2] == ':' && LocalTimeText(t)[5] == ':'
    ensures InRange(t) && t.milliseconds > 0 ==> LocalTimeText(t)[8] == '.'
  {
  }

  /** Reads an `HH:MM:SS` or `HH:MM:SS.mmm` text back into its fields. */
  function ParseLocalTime(text: string): (r: Option<TimeOfDay>)
    ensures r.Some? ==> |text| == 8 || |text| == 12
  {
    if (|text| == 8 || (|text| == 12 && text[8] == '.' && AllDigits(text[9..])))
       && text[2] == ':' && text[5] == ':'
       && AllDigits(text[..2]) && AllDigits(text[3..5]) && AllDigits(text[6..8])
    then
      Some(TimeOfDay(DigitsValue(text[..2]), DigitsValue(text[3..5]), DigitsValue(text[6..8]),
                     if |text| == 12 then DigitsValue(text[9..]) else 0))
    else
      None
  }

  lemma PadTwo(n: nat)
    ensures ZeroPad(n, 2) == if n > 9 then Decimal(n) else "0" + Decimal(n)
  {
    DecimalLength(n, 1);
  }

  lemma PadThree(n: nat)
    ensures ZeroPad(n, 3) == if n > 99 then Decimal(n) else if n > 9 then "0" + Decimal(n) else "00" + Decimal(n)
  {
    DecimalLength(n, 1);
    DecimalLength(n, 2);
  }

  /** One `HH`, `MM` or `SS` step of the serialiser: the field is appended as
      it is when it has two digits, and after a `'0'` otherwise. */
  method AppendTwoDigits(text: string, n: nat) returns (result: string)
    ensures result == text + ZeroPad(n, 2)
  {
    if n > 9 {
      result := text + Decimal(n);
    } else {
      result := text + ("0" + Decimal(n));
    }
    PadTwo(n);
  }

  /** The milliseconds step: nothing for zero milliseconds, otherwise a dot
      and the milliseconds padded to three digits. */
  method AppendMilliseconds(text: string, ms: nat) returns (result: string)
    ensures result == text + (if ms > 0 then "." + ZeroPad(ms, 3) else "")
  {
    result := text;
    if ms > 0 {
      result := result + ".";
      if ms > 99 {
        result := result + Decimal(ms);
      } else if ms > 9 {
        result := result + ("0" + Decimal(ms));
      } else {
        result := result + ("00" + Decimal(ms));
      }
      PadThree(ms);
    }
  }

  /**
   * The serialiser as the connection runs it: a text built by successive
   * appends, with one branch per field on whether it already has enough digits.
   */
  method FormatLocalTime(d: JsDate) returns (result: string)
    ensures result == LocalTimeText(TimeOf(d))
  {
    result := "";
    result := AppendTwoDigits(result, d.hours);
    result := result + ":";
    result := AppendTwoDigits(result, d.minutes);
    result := result + ":";
    result := AppendTwoDigits(result, d.seconds);
    result := AppendMilliseconds(result, d.milliseconds);
  }

  /** Parsing the text of an in-range time of day gives back its fields. */
  lemma ParseFormatRoundTrip(t: TimeOfDay)
    ensures InRange(t) ==> ParseLocalTime(LocalTimeText(t)) == Some(t)
  {
    if !InRange(t) {
      return;
    }
    var text := LocalTimeText(t);
    var hh, mm, ss := ZeroPad(t.hours, 2), ZeroPad(t.minutes, 2), ZeroPad(t.seconds, 2);
    assert text[..2] == hh;
    assert text[3..5] == mm;
    assert text[6..8] == ss;
    if t.milliseconds > 0 {
      assert text[9..] == ZeroPad(t.milliseconds, 3);
    }
  }

  /** Distinct in-range times of day are sent as distinct texts. */
  lemma LocalTimeTextInjective(a: TimeOfDay, b: TimeOfDay)
    requires InRange(a) && InRange(b)
    requires LocalTimeText(a) == LocalTimeText(b)
    ensures a == b
  {
    ParseFormatRoundTrip(a);
    ParseFormatRoundTrip(b);
  }
}
