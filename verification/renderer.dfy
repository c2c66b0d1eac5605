/** The pure decisions of the Electron dashboard's refresh (`renderer/app.js`):
    uptime formatting, the header colour, the obstruction bar, the software
    label and the time shown for a log line. */
module Renderer {

  import opened Wrappers
  import opened Text
  import Backend
  import Logs
  import Dish
  import Tray

  const Green := "#00C853"
  const Yellow := "#FFD600"
  const Red := "#D50000"

  const SecondsPerDay: int := 86400
  const SecondsPerHour: int := 3600
  const SecondsPerMinute: int := 60

  /** The quotient of `a / b` rounded toward zero, as JavaScript's `%`
      pairs with it (Dafny's `/` rounds down for a positive divisor). */
  function TruncDiv(a: int, b: int): int
    requires b > 0
  {
    if a >= 0 then a / b else -((-a) / b)
  }

  /** JavaScript's `a % b` for a positive divisor: the remainder of the
      quotient rounded toward zero, so it takes the sign of `a` (Dafny's `%`
      never goes negative). */
  function JsRem(a: int, b: int): (r: int)
    requires b > 0
    ensures a >= 0 ==> 0 <= r < b
    ensures a < 0 ==> -b < r <= 0
    ensures a == b * TruncDiv(a, b) + r
  {
    if a >= 0 then a % b else -((-a) % b)
  }

  /** The three counts `formatUptime` prints. */
  datatype Uptime = Uptime(days: int, hours: int, mins: int)

  /** `Math.floor(s / 86400)`, `Math.floor((s % 86400) / 3600)` and
      `Math.floor((s % 3600) / 60)`; for a positive divisor Dafny's `/` is
      already the floor. */
  function UptimeParts(seconds: int): (u: Uptime)
    ensures seconds >= 0 ==>
      && u.days >= 0 && 0 <= u.hours < 24 && 0 <= u.mins < 60
      && u.days * SecondsPerDay + u.hours * SecondsPerHour + u.mins * SecondsPerMinute <= seconds
      && seconds < u.days * SecondsPerDay + u.hours * SecondsPerHour + u.mins * SecondsPerMinute + SecondsPerMinute
  {
    var u := Uptime(seconds / SecondsPerDay,
                    JsRem(seconds, SecondsPerDay) / SecondsPerHour,
                    JsRem(seconds, SecondsPerHour) / SecondsPerMinute);
    if seconds >= 0 then
      DecomposeUptime(seconds);
      u
    else u
  }

  /** The day, hour and minute counts of a non-negative number of seconds
      add back up to it, short of under a minute. */
  lemma DecomposeUptime(s: int)
    requires s >= 0
    ensures var d, h, m := s / 86400, (s % 86400) / 3600, (s % 3600) / 60;
      && d >= 0 && 0 <= h < 24 && 0 <= m < 60
      && d * 86400 + h * 3600 + m * 60 <= s < d * 86400 + h * 3600 + m * 60 + 60
  {
    var d, r1 := s / 86400, s % 86400;
    var h, r2 := r1 / 3600, r1 % 3600;
    var m, r3 := r2 / 60, r2 % 60;
    assert s == d * 86400 + r1 && 0 <= r1 < 86400;
    assert r1 == h * 3600 + r2 && 0 <= r2 < 3600;
    assert r2 == m * 60 + r3 && 0 <= r3 < 60;
    assert s == (d * 24 + h) * 3600 + r2;
    assert s % 3600 == r2;
  }

  /** `formatUptime`: leading zero units are omitted, so under an hour only
      minutes show, under a day hours and minutes, else all three. */
  function FormatUptime(seconds: int): (r: string)
    ensures 0 <= seconds < SecondsPerHour ==> r == IntToDecimal(seconds / 60) + "m"
    ensures SecondsPerHour <= seconds < SecondsPerDay ==>
      r == IntToDecimal(seconds / 3600) + "h " + IntToDecimal(seconds % 3600 / 60) + "m"
    ensures SecondsPerDay <= seconds ==>
      r == IntToDecimal(seconds / 86400) + "d " + IntToDecimal(seconds % 86400 / 3600) + "h "
           + IntToDecimal(seconds % 3600 / 60) + "m"
  {
    var u := UptimeParts(seconds);
    assert 0 <= seconds < SecondsPerDay ==> u.days == 0 && seconds % 86400 == seconds;
    assert 0 <= seconds < SecondsPerHour ==> u.hours == 0 && seconds % 3600 == seconds;
    if u.days > 0 then
      IntToDecimal(u.days) + "d " + IntToDecimal(u.hours) + "h " + IntToDecimal(u.mins) + "m"
    else if u.hours > 0 then
      IntToDecimal(u.hours) + "h " + IntToDecimal(u.mins) + "m"
    else IntToDecimal(u.mins) + "m"
  }

  /** The uptime text ends in "m", and the number just before it, after
      the last blank, reads back as the minutes within the current hour. */
  lemma FormatUptimeMinutes(s: int)
    requires s >= 0
    ensures var r := FormatUptime(s);
      && |r| > 0 && r[|r| - 1] == 'm'
      && var w := LastField(r[..|r| - 1], ' ');
         && (forall i :: 0 <= i < |w| ==> IsDigit(w[i]))
         && DecimalValue(w) == s % 3600 / 60
  {
    var r := FormatUptime(s);
    var m: nat := s % 3600 / 60;
    var digits := NatToDecimal(m);
    assert IntToDecimal(m) == digits;
    assert ' ' !in digits by {
      forall i | 0 <= i < |digits| ensures digits[i] != ' ' {
        assert IsDigit(digits[i]);
      }
    }
    if s < SecondsPerHour {
      assert s % 3600 == s;
      assert r == digits + "m";
      assert r[..|r| - 1] == digits;
    } else {
      var head := if s < SecondsPerDay then IntToDecimal(s / 3600) + "h"
                  else IntToDecimal(s / 86400) + "d " + IntToDecimal(s % 86400 / 3600) + "h";
      assert r == head + [' '] + digits + "m";
      assert r[..|r| - 1] == head + [' '] + digits;
      LastFieldOfJoin(head, ' ', digits);
    }
    DecimalRoundTrip(m);
  }

  /** The header colour: green whenever the status mentions "Online" (even
      an obstructed one), else yellow when it mentions "Obstructed", else
      red. */
  function StatusColour(statusText: string): (r: string)
    ensures r == Green <==> Contains(statusText, "Online")
    ensures r == Yellow <==> !Contains(statusText, "Online") && Contains(statusText, "Obstructed")
    ensures r == Red <==> !Contains(statusText, "Online") && !Contains(statusText, "Obstructed")
  {
    if Contains(statusText, "Online") then Green
    else if Contains(statusText, "Obstructed") then Yellow
    else Red
  }

  /** "Obstructed" does not mention "Online". */
  lemma ObstructedLacksOnline()
    ensures !Contains("Obstructed", "Online")
  {
    var s := "Obstructed";
    ContainsIffOccurs(s, "Online");
    forall i ensures !OccursAt(s, "Online", i) {
      if 0 <= i && i + 6 <= |s| {
        assert s[i..i + 6][0] == s[i];
        assert s[i..i + 6][1] == s[i + 1];
      }
    }
  }

  /** The colour each backend status text gets. "Online (Obstructed)" is
      green here, where the tray's header shows it amber, and "Idle" is red. */
  lemma StatusColourOfLabel(st: Backend.Status)
    ensures StatusColour(Backend.Label(st)) ==
      match st
      case Online | OnlineObstructed => Green
      case Obstructed => Yellow
      case Idle => Red
  {
    var s := Backend.Label(st);
    match st
    case Online => ContainsAt(s, "Online", 0);
    case OnlineObstructed => ContainsAt(s, "Online", 0);
    case Obstructed =>
      ContainsAt(s, "Obstructed", 0);
      ObstructedLacksOnline();
    case Idle => NoCapitalO(s);
  }

  /** The two dashboards rank the two status words in opposite order: the
      obstructed online status is green here and amber in the tray. */
  lemma PrecedenceOppositeToTray()
    ensures StatusColour(Backend.Label(Backend.OnlineObstructed)) == Green
    ensures Tray.HeaderColour(true, Backend.Label(Backend.OnlineObstructed)) == Tray.Amber
  {
    StatusColourOfLabel(Backend.OnlineObstructed);
    Tray.HeaderColourOfVerdicts("");
  }

  /** The two texts no successful poll produces are shown red. */
  lemma StatusColourOffline()
    ensures StatusColour(Backend.ConnectingText) == Red
    ensures StatusColour(Backend.DisconnectedText) == Red
  {
    NoCapitalO(Backend.ConnectingText);
    NoCapitalO(Backend.DisconnectedText);
  }

  /** A text without a capital 'O' mentions neither status word. */
  lemma NoCapitalO(s: string)
    requires 'O' !in s
    ensures !Contains(s, "Online") && !Contains(s, "Obstructed")
  {
    NotContainsWithoutFirstChar(s, "Online");
    NotContainsWithoutFirstChar(s, "Obstructed");
  }

  /** The obstruction bar: `Math.min(pct, 100)` percent wide, yellow above
      1 % and green otherwise. */
  datatype Bar = Bar(width: real, colour: string)

  function ObstructionBar(pct: real): (r: Bar)
    ensures r.width <= 100.0
    ensures r.width == pct || r.width == 100.0
    ensures pct <= 100.0 ==> r.width == pct
    ensures r.colour == Yellow <==> pct > 1.0
    ensures r.colour == Green <==> pct <= 1.0
  {
    Bar(if pct < 100.0 then pct else 100.0, if pct > 1.0 then Yellow else Green)
  }

  /** The time shown for a log line: `timestamp.split(" ")[1]`, which is
      `undefined` (`None`) when the timestamp has no blank. */
  function LogTime(timestamp: string): (r: Option<string>)
    ensures r.Some? <==> ' ' in timestamp
    ensures r.Some? ==> ' ' !in r.value
    ensures r.Some? ==>
      var k := |FirstField(timestamp, ' ')| + 1;
      && k + |r.value| <= |timestamp| && timestamp[k..k + |r.value|] == r.value
      && (k + |r.value| < |timestamp| ==> timestamp[k + |r.value|] == ' ')
  {
    SecondField(timestamp, ' ')
  }

  /** A timestamp as the backend writes it shows its time of day. */
  lemma LogTimeOfCapturedEntry(date: string, time: string)
    requires ' ' !in date && ' ' !in time
    ensures LogTime(Logs.Timestamp(date, time)) == Some(time)
  {
    assert Logs.Timestamp(date, time) == date + [' '] + time;
    SecondFieldOfJoin(date, ' ', time);
  }

  /** What one refresh shows. */
  datatype View = View(header: string, headerColour: string, uptime: string,
                       bar: Bar, software: string, hardware: string, heater: string)

  /** One `updateData`. When both fetches succeed every element is
      redrawn, the header being the upper-cased status; when either fails
      only the header changes, to "DISCONNECTED" in red, and every other
      element keeps what it showed. */
  function Refresh(shown: View, fetched: Option<Backend.Stats>): (v: View)
    ensures fetched.None? ==>
      && v.header == "DISCONNECTED" && v.headerColour == Red
      && v.uptime == shown.uptime && v.bar == shown.bar && v.software == shown.software
      && v.hardware == shown.hardware && v.heater == shown.heater
    ensures fetched.Some? ==>
      && |v.header| == |fetched.value.statusText|
      && v.header == AsciiUpper(fetched.value.statusText)
      && v.headerColour == StatusColour(fetched.value.statusText)
      && v.bar == ObstructionBar(fetched.value.obstructedPct)
      && v.uptime == FormatUptime(fetched.value.uptimeS)
      && v.software == Dish.SoftwareLabel(fetched.value.software)
      && v.hardware == fetched.value.hardware && v.heater == fetched.value.heater
  {
    match fetched
    case Some(s) =>
      View(AsciiUpper(s.statusText), StatusColour(s.statusText), FormatUptime(s.uptimeS),
           ObstructionBar(s.obstructedPct), Dish.SoftwareLabel(s.software), s.hardware, s.heater)
    case None =>
      shown.(header := "DISCONNECTED", headerColour := Red)
  }

  /** Repeating a refresh with the same outcome changes nothing. */
  lemma RefreshIdempotent(shown: View, fetched: Option<Backend.Stats>)
    ensures Refresh(Refresh(shown, fetched), fetched) == Refresh(shown, fetched)
  {
  }

  /** A successful refresh leaves no trace of an earlier failure: what it
      shows depends on the record alone. */
  lemma RefreshForgetsFailure(shown: View, other: View, s: Backend.Stats)
    ensures Refresh(Refresh(shown, None), Some(s)) == Refresh(other, Some(s))
  {
  }
}
