/** Local times of day as the collector handles them: strings `HH:MM:SS`
    (a slot's `localStartTime`, and the current time rendered by
    `toLocaleString` with `hour12: false`), compared with JavaScript's `>` on
    strings. This module shows why that string comparison is the
    chronological one for well-formed times. */
module LocalTimes {
  import opened Text

  datatype TimeOfDay = TimeOfDay(hour: nat, minute: nat, second: nat)

  predicate IsValidTime(t: TimeOfDay) {
    t.hour < 24 && t.minute < 60 && t.second < 60
  }

  function SecondsOfDay(t: TimeOfDay): nat {
    3600 * t.hour + 60 * t.minute + t.second
  }

  /** `HH:MM:SS`, each field zero-padded to two digits. */
  function FormatTime(t: TimeOfDay): (s: string)
    ensures |s| == 8
  {
    Digits(t.hour, 2) + ":" + Digits(t.minute, 2) + ":" + Digits(t.second, 2)
  }

  /** A two-digit field followed by a colon: the field decides, and on a tie
      what follows the colon. */
  lemma FieldThenRest(x: nat, y: nat, r: string, r': string)
    requires x < 100 && y < 100
    ensures LexLess(Digits(x, 2) + ":" + r, Digits(y, 2) + ":" + r') <==> x < y || (x == y && LexLess(r, r'))
  {
    assert Digits(x, 2) + ":" + r == Digits(x, 2) + (":" + r);
    assert Digits(y, 2) + ":" + r' == Digits(y, 2) + (":" + r');
    LexLessAppend(Digits(x, 2), ":" + r, Digits(y, 2), ":" + r');
    LexLessAppend(":", r, ":", r');
    DigitsOrder(x, y, 2);
    DigitsRoundTrip(x, 2);
    DigitsRoundTrip(y, 2);
    LexLessTrichotomy(Digits(x, 2), Digits(y, 2));
  }

  /** Comparing hours, then minutes, then seconds is comparing seconds of the day. */
  lemma LexicographicIsChronological(a: TimeOfDay, b: TimeOfDay)
    requires IsValidTime(a) && IsValidTime(b)
    ensures (a.hour < b.hour || (a.hour == b.hour && (a.minute < b.minute || (a.minute == b.minute && a.second < b.second))))
            <==> SecondsOfDay(a) < SecondsOfDay(b)
  {
    var ra, rb := 60 * a.minute + a.second, 60 * b.minute + b.second;
    assert ra < 3600 && rb < 3600;
    if a.hour < b.hour {
      assert 3600 * a.hour + 3600 <= 3600 * b.hour;
    } else if b.hour < a.hour {
      assert 3600 * b.hour + 3600 <= 3600 * a.hour;
    } else if a.minute < b.minute {
      assert 60 * a.minute + 60 <= 60 * b.minute;
    } else if b.minute < a.minute {
      assert 60 * b.minute + 60 <= 60 * a.minute;
    }
  }

  /** For well-formed times, JavaScript's string `<` on their `HH:MM:SS`
      forms is exactly "earlier in the day". */
  lemma FormatTimeOrder(a: TimeOfDay, b: TimeOfDay)
    requires IsValidTime(a) && IsValidTime(b)
    ensures LexLess(FormatTime(a), FormatTime(b)) <==> SecondsOfDay(a) < SecondsOfDay(b)
  {
    var sa, sb := Digits(a.second, 2), Digits(b.second, 2);
    assert FormatTime(a) == Digits(a.hour, 2) + ":" + (Digits(a.minute, 2) + ":" + sa);
    assert FormatTime(b) == Digits(b.hour, 2) + ":" + (Digits(b.minute, 2) + ":" + sb);
    FieldThenRest(a.hour, b.hour, Digits(a.minute, 2) + ":" + sa, Digits(b.minute, 2) + ":" + sb);
    FieldThenRest(a.minute, b.minute, sa, sb);
    DigitsOrder(a.second, b.second, 2);
    LexicographicIsChronological(a, b);
  }
}
