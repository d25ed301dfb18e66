/** `formatUptime` of the dashboards: `pages/Dashboard.tsx` writes days,
    hours and minutes, leaving out zero parts; `pages/dashboard.tsx` and
    `pages/dashboard/dashboard.screen.tsx` write days and hours only.
    Seconds are whole numbers here. `Math.floor(x / y)` with a positive
    divisor is Dafny's `/`; JavaScript's `%` keeps the sign of the
    dividend and is written out. */
module Uptime {
  import opened Text

  /** JavaScript's `a % b` for a positive `b`. */
  function JsRem(a: int, b: int): (r: int)
    requires b > 0
    ensures a >= 0 ==> r == a % b
    ensures a < 0 ==> -b < r <= 0
  {
    if a >= 0 then a % b else -((-a) % b)
  }

  /** The days, hours and minutes of `formatUptime`. */
  datatype Parts = Parts(days: int, hours: int, minutes: int)

  function UptimeParts(seconds: int): Parts {
    Parts(seconds / 86400, JsRem(seconds, 86400) / 3600, JsRem(seconds, 3600) / 60)
  }

  /** For a non-negative uptime the parts are a days-hours-minutes
      decomposition that drops fewer than 60 seconds. */
  lemma UptimePartsDecompose(seconds: int)
    requires seconds >= 0
    ensures var p := UptimeParts(seconds);
      p.days >= 0 && 0 <= p.hours < 24 && 0 <= p.minutes < 60 &&
      seconds - 60 < p.days * 86400 + p.hours * 3600 + p.minutes * 60 <= seconds
  {
    var p := UptimeParts(seconds);
    var r := seconds % 86400;
    assert seconds == p.days * 86400 + r;
    assert r == p.hours * 3600 + r % 3600;
    assert seconds % 3600 == r % 3600 by {
      assert seconds == (p.days * 24) * 3600 + r;
    }
  }

  /** A negative uptime has no positive part. */
  lemma NegativeUptimeParts(seconds: int)
    requires seconds < 0
    ensures var p := UptimeParts(seconds);
      p.days < 0 && p.hours <= 0 && p.minutes <= 0
  {
  }

  /** `${n}` followed by a unit letter. */
  function Part(n: int, unit: char): string {
    IntToString(n) + [unit]
  }

  /** The non-zero parts of `Dashboard.tsx`'s `formatUptime`, in order. */
  function NonZeroParts(p: Parts): seq<string> {
    (if p.days > 0 then [Part(p.days, 'd')] else []) +
    (if p.hours > 0 then [Part(p.hours, 'h')] else []) +
    (if p.minutes > 0 then [Part(p.minutes, 'm')] else [])
  }

  /** `formatUptime` of `Dashboard.tsx`: the parts joined by spaces, or
      "0m" when there are none. */
  function FormatUptimeDhm(seconds: int): string {
    var text := Join(NonZeroParts(UptimeParts(seconds)), " ");
    if text == "" then "0m" else text
  }

  /** A positive number never renders as "0". */
  lemma PositiveNotZeroText(n: int)
    requires n > 0
    ensures IntToString(n) != "0"
  {
    NatToStringValue(n);
    assert DigitsValue("0") == 0;
  }

  /** Each part ends with its unit letter and has a digit before it. */
  lemma PartNotEmpty(n: int, unit: char)
    requires n > 0
    ensures Part(n, unit) != "" && Part(n, unit) != "0m"
  {
    var t := Part(n, unit);
    assert t[..|t| - 1] == IntToString(n);
    PositiveNotZeroText(n);
    assert "0m"[..1] == "0";
  }

  /** The text is "0m" exactly when the uptime is under a minute (and for
      any negative uptime). */
  lemma FormatUptimeDhmZero(seconds: int)
    ensures FormatUptimeDhm(seconds) == "0m" <==> seconds < 60
  {
    var p := UptimeParts(seconds);
    var parts := NonZeroParts(p);
    if seconds >= 0 {
      UptimePartsDecompose(seconds);
    } else {
      NegativeUptimeParts(seconds);
    }
    if seconds < 60 {
      assert parts == [];
    } else {
      assert |parts| > 0;
      var text := Join(parts, " ");
      if |parts| == 1 {
        var n := if p.days > 0 then p.days else if p.hours > 0 then p.hours else p.minutes;
        var u := if p.days > 0 then 'd' else if p.hours > 0 then 'h' else 'm';
        assert parts == [Part(n, u)];
        assert text == Part(n, u);
        PartNotEmpty(n, u);
      } else {
        JoinLong(parts);
      }
    }
  }

  /** Two or more non-empty parts joined by a space are longer than "0m". */
  lemma JoinLong(parts: seq<string>)
    requires |parts| >= 2
    requires forall k :: 0 <= k < |parts| ==> parts[k] != ""
    ensures |Join(parts, " ")| > 2
  {
    JoinLength(parts);
  }

  /** A join is at least its parts and separators. */
  lemma {:induction false} JoinLength(parts: seq<string>)
    requires forall k :: 0 <= k < |parts| ==> parts[k] != ""
    ensures |parts| >= 1 ==> |Join(parts, " ")| >= 2 * |parts| - 1
  {
    if |parts| > 1 {
      JoinLength(parts[1..]);
    }
  }

  /** `formatUptime` of `dashboard.tsx` and `dashboard.screen.tsx`:
      "{d}d {h}h" when there are days, else "{h}h". */
  function FormatUptimeDh(seconds: int): string {
    var p := UptimeParts(seconds);
    if p.days > 0 then Part(p.days, 'd') + " " + Part(p.hours, 'h') else Part(p.hours, 'h')
  }

  /** The number text never holds the letter 'd'. */
  lemma NoDayLetter(n: int)
    ensures 'd' !in IntToString(n)
  {
    var m: nat := if n < 0 then -n else n;
    assert AllDigits(NatToString(m));
  }

  /** The days are written exactly from one full day on, and the text
      always ends with the hours. */
  lemma FormatUptimeDhDays(seconds: int)
    ensures 'd' in FormatUptimeDh(seconds) <==> seconds >= 86400
    ensures var t := FormatUptimeDh(seconds); |t| > 0 && t[|t| - 1] == 'h'
  {
    var p := UptimeParts(seconds);
    NoDayLetter(p.hours);
    NoDayLetter(p.days);
    var hoursText := Part(p.hours, 'h');
    assert 'd' !in hoursText;
    if p.days > 0 {
      var t := Part(p.days, 'd') + " " + hoursText;
      assert t[|IntToString(p.days)|] == 'd';
    }
  }

  /** Under a day, only the hours are written. */
  lemma FormatUptimeDhHours(seconds: int)
    requires 0 <= seconds < 86400
    ensures FormatUptimeDh(seconds) == IntToString(seconds / 3600) + "h"
  {
  }

  /** A worked example: one day, one hour, one minute and one second. */
  lemma FormatUptimeExamples()
    ensures FormatUptimeDhm(90061) == "1d 1h 1m"
    ensures FormatUptimeDh(90061) == "1d 1h"
    ensures FormatUptimeDhm(59) == "0m"
  {
    assert UptimeParts(90061) == Parts(1, 1, 1);
    assert IntToString(1) == "1";
    assert Part(1, 'd') == "1d" && Part(1, 'h') == "1h" && Part(1, 'm') == "1m";
    assert NonZeroParts(Parts(1, 1, 1)) == ["1d", "1h", "1m"];
    assert UptimeParts(59) == Parts(0, 0, 0);
  }
}
