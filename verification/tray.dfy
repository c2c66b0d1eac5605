/** The desktop tray variant (`starlink_tray.py`): its own stats record with
    a few extra fields, its own copy of the poll tick that also picks a tray
    icon colour and a tray title, and the pure decisions of the dashboard
    redraw (`update_dashboard`). */
module Tray {

  import opened Wrappers
  import opened Dish
  import opened Text
  import Backend
  import History

  // Tray icon dot colours, as passed to `create_image`.
  const IconGreen := "green"
  const IconYellow := "yellow"
  const IconRed := "red"
  const IconGray := "gray"

  // Dashboard colours.
  const Green := "#00C853"
  const Amber := "#FFAB00"
  const Red := "#D50000"

  /** Longest tray title shown as is, and how much of a longer one is kept
      before the ellipsis. */
  const TitleLimit: nat := 63
  const TitleKeep: nat := 60

  const OnlinePrefix := "Online: "
  const MbpsSuffix := " Mbps"

  /** `self.stats`. */
  datatype TrayStats = TrayStats(
    online: bool,
    statusText: string,
    down: real,
    up: real,
    ping: real,
    obstructedPct: real,
    validS: real,
    uptimeS: int,
    hardware: string,
    software: string,
    country: string,
    gpsValid: bool,
    sats: int,
    azimuth: real,
    elevation: real,
    tilt: real,
    snrGood: bool,
    heater: string,
    ethSpeed: int)

  /** Everything the poll thread writes: the stats, the two series, and the
      tray icon's colour and title. */
  datatype App = App(stats: TrayStats, history: History.History, icon: string, title: string)

  /** `StarlinkTrayApp.__init__`. */
  function Initial(): (r: App)
    ensures !r.stats.online && r.stats.statusText == Backend.ConnectingText
    ensures r.history == History.Initial()
    ensures r.icon == IconGray && r.title == "Starlink Stats: Connecting..."
    ensures var s := r.stats;
      && s.down == 0.0 && s.up == 0.0 && s.ping == 0.0 && s.obstructedPct == 0.0
      && s.validS == 0.0 && s.uptimeS == 0 && s.sats == 0
      && s.azimuth == 0.0 && s.elevation == 0.0 && s.tilt == 0.0 && s.ethSpeed == 0
      && s.hardware == "--" && s.software == "--" && s.country == "--" && s.heater == "--"
      && !s.gpsValid && !s.snrGood
  {
    App(
      TrayStats(false, Backend.ConnectingText, 0.0, 0.0, 0.0, 0.0, 0.0, 0,
                "--", "--", "--", false, 0, 0.0, 0.0, 0.0, false, "--", 0),
      History.Initial(), IconGray, "Starlink Stats: Connecting...")
  }

  /** The two records agree on every reading, that is on every field except
      `online` and `statusText`. */
  predicate SameReadings(a: TrayStats, b: TrayStats)
  {
    && a.down == b.down && a.up == b.up && a.ping == b.ping
    && a.obstructedPct == b.obstructedPct && a.validS == b.validS
    && a.uptimeS == b.uptimeS && a.hardware == b.hardware
    && a.software == b.software && a.country == b.country
    && a.gpsValid == b.gpsValid && a.sats == b.sats
    && a.azimuth == b.azimuth && a.elevation == b.elevation
    && a.tilt == b.tilt && a.snrGood == b.snrGood
    && a.heater == b.heater && a.ethSpeed == b.ethSpeed
  }

  /** The tray record shows the same readings and the same online flag as
      the backend's record. */
  predicate AgreesWith(t: TrayStats, b: Backend.Stats)
  {
    && t.online == b.online
    && t.down == b.down && t.up == b.up && t.ping == b.ping
    && t.obstructedPct == b.obstructedPct && t.uptimeS == b.uptimeS
    && t.hardware == b.hardware && t.software == b.software
    && t.sats == b.gpsSats && t.azimuth == b.azimuth
    && t.elevation == b.elevation && t.tilt == b.tilt
    && t.heater == b.heater && t.ethSpeed == b.ethSpeed
  }

  /** The status text and icon colour one successful poll settles on. */
  datatype Verdict = Verdict(text: string, colour: string)

  /** The tray's status rule. It branches exactly like the backend's; the
      plain online text carries the formatted download rate `rate`, and the
      icon is yellow for the two obstructed verdicts and green otherwise. */
  function Classify(down: real, ping: real, pct: real, rate: string): (v: Verdict)
    ensures var b := Backend.Classify(down, ping, pct);
      && (v.colour == IconYellow <==> b == Backend.OnlineObstructed || b == Backend.Obstructed)
      && (v.colour == IconGreen <==> b == Backend.Online || b == Backend.Idle)
      && (b == Backend.Online ==> v.text == OnlinePrefix + rate + MbpsSuffix)
      && (b != Backend.Online ==> v.text == Backend.Label(b))
  {
    if down > 0.0 || ping > 0.0 then
      if pct > 5.0 then Verdict("Online (Obstructed)", IconYellow)
      else Verdict(OnlinePrefix + rate + MbpsSuffix, IconGreen)
    else if pct > 0.0 then Verdict("Obstructed", IconYellow)
    else Verdict("Idle", IconGreen)
  }

  /** The success branch of `poll_loop`: every field parsed with its default,
      then the verdict. `fmt` is the opaque `:.1f` rendering of a rate. */
  function Parse(s: Snapshot, fmt: real -> string): (r: TrayStats)
    ensures AgreesWith(r, Backend.Normalize(s))
    ensures r.statusText == Classify(r.down, r.ping, r.obstructedPct, fmt(r.down)).text
    ensures r.validS == s.validS.GetOr(0.0)
    ensures r.country == s.countryCode.GetOr("--")
    ensures r.gpsValid == s.gpsValid.GetOr(false)
    ensures r.snrGood == s.isSnrAboveNoiseFloor.GetOr(false)
  {
    var down := s.downlinkThroughputBps.GetOr(0.0) / 1_000_000.0;
    var up := s.uplinkThroughputBps.GetOr(0.0) / 1_000_000.0;
    var ping := s.popPingLatencyMs.GetOr(0.0);
    var pct := s.fractionObstructed.GetOr(0.0) * 100.0;
    TrayStats(
      online := true,
      statusText := Classify(down, ping, pct, fmt(down)).text,
      down := down,
      up := up,
      ping := ping,
      obstructedPct := pct,
      validS := s.validS.GetOr(0.0),
      uptimeS := s.uptimeS.GetOr(0),
      hardware := s.hardwareVersion.GetOr("Unknown"),
      software := s.softwareVersion.GetOr("Unknown"),
      country := s.countryCode.GetOr("--"),
      gpsValid := s.gpsValid.GetOr(false),
      sats := s.gpsSats.GetOr(0),
      azimuth := s.boresightAzimuthDeg.GetOr(0.0),
      elevation := s.boresightElevationDeg.GetOr(0.0),
      tilt := s.tiltAngleDeg.GetOr(0.0),
      snrGood := s.isSnrAboveNoiseFloor.GetOr(false),
      heater := s.snowMeltMode.GetOr("UNKNOWN"),
      ethSpeed := s.ethSpeedMbps.GetOr(0))
  }

  /** The tray title: "Starlink: " and the status, cut to 60 characters
      plus "..." when it would exceed 63. */
  function Title(statusText: string): (r: string)
    ensures |r| <= TitleLimit
    ensures r == "Starlink: " + statusText <==> |statusText| <= TitleLimit - 10
    ensures |statusText| > TitleLimit - 10 ==>
      && |r| == TitleLimit && r[..10] == "Starlink: "
      && r[10..TitleKeep] == statusText[..TitleKeep - 10]
      && r[TitleKeep..] == "..."
  {
    var title := "Starlink: " + statusText;
    if |title| > TitleLimit then title[..TitleKeep] + "..." else title
  }

  /** One iteration of `poll_loop`. On success the stats are re-parsed and
      the icon follows the verdict; on failure only `online` and
      `statusText` change and the icon turns red. Either way one sample
      enters each series and the title follows the new status. */
  function Tick(app: App, fetched: Option<Snapshot>, fmt: real -> string): (r: App)
    requires History.Valid(app.history)
    ensures History.Valid(r.history)
    ensures fetched.Some? ==>
      && r.stats == Parse(fetched.value, fmt)
      && r.icon == Classify(r.stats.down, r.stats.ping, r.stats.obstructedPct, fmt(r.stats.down)).colour
    ensures fetched.None? ==>
      && !r.stats.online && r.stats.statusText == Backend.DisconnectedText
      && r.icon == IconRed && SameReadings(r.stats, app.stats)
    ensures r.history.down[History.Len - 1] == (if fetched.Some? then r.stats.down else 0.0)
    ensures r.history.up[History.Len - 1] == (if fetched.Some? then r.stats.up else 0.0)
    ensures r.history.down[..History.Len - 1] == app.history.down[1..]
    ensures r.history.up[..History.Len - 1] == app.history.up[1..]
    ensures r.title == Title(r.stats.statusText)
  {
    match fetched
    case Some(s) =>
      var stats := Parse(s, fmt);
      var v := Classify(stats.down, stats.ping, stats.obstructedPct, fmt(stats.down));
      App(stats, History.Record(app.history, stats.down, stats.up), v.colour, Title(stats.statusText))
    case None =>
      var stats := app.stats.(online := false, statusText := Backend.DisconnectedText);
      App(stats, History.Record(app.history, 0.0, 0.0), IconRed, Title(stats.statusText))
  }

  /** Consecutive ticks with the given outcomes, oldest first. */
  function Run(app: App, fetches: seq<Option<Snapshot>>, fmt: real -> string): (r: App)
    requires History.Valid(app.history)
    ensures History.Valid(r.history)
    decreases |fetches|
  {
    if |fetches| == 0 then app else Run(Tick(app, fetches[0], fmt), fetches[1..], fmt)
  }

  /** The tray text for a backend record: the backend's text, except that a
      plain online verdict carries the rate. */
  function TextFor(b: Backend.Stats, fmt: real -> string): string
  {
    if b.statusText == Backend.Label(Backend.Online) then OnlinePrefix + fmt(b.down) + MbpsSuffix
    else b.statusText
  }

  /** Fed the same poll outcomes from the same series and readings, the tray
      and the backend keep identical series and identical readings, and
      publish the same status except for the rate in a plain online text. */
  lemma {:induction false} TrayMatchesBackend(app: App, st: Backend.State,
                                              fetches: seq<Option<Snapshot>>, fmt: real -> string)
    requires History.Valid(app.history) && app.history == st.history
    requires AgreesWith(app.stats, st.stats)
    requires app.stats.statusText == TextFor(st.stats, fmt)
    ensures var a := Run(app, fetches, fmt); var b := Backend.Run(st, fetches);
      && a.history == b.history
      && AgreesWith(a.stats, b.stats)
      && a.stats.statusText == TextFor(b.stats, fmt)
    decreases |fetches|
  {
    if |fetches| > 0 {
      var a' := Tick(app, fetches[0], fmt);
      var b' := Backend.Tick(st, fetches[0]);
      if fetches[0].Some? {
        var n := b'.stats;
        Backend.LabelsDistinct(Backend.Classify(n.down, n.ping, n.obstructedPct), Backend.Online);
      }
      TrayMatchesBackend(a', b', fetches[1..], fmt);
    }
  }

  // ---------------------------------------------------------------------
  // Dashboard redraw (`update_dashboard`)
  // ---------------------------------------------------------------------

  /** The big header text: when online, the stripped text after the last
      ':' of the status if it has one, else the whole status; when offline
      "DISCONNECTED". */
  function HeaderText(online: bool, statusText: string): (r: string)
    ensures !online ==> r == "DISCONNECTED"
    ensures online && ':' !in statusText ==> r == statusText
    ensures online && ':' in statusText ==>
      && ':' !in r
      && (|r| > 0 ==> !IsSpace(r[0]) && !IsSpace(r[|r| - 1]))
  {
    if !online then "DISCONNECTED"
    else if ':' in statusText then Strip(LastField(statusText, ':'))
    else statusText
  }

  /** The header of a plain online status is the formatted rate with its
      unit. */
  lemma OnlineHeaderShowsRate(rate: string)
    requires |rate| > 0 && ':' !in rate && !IsSpace(rate[0])
    ensures HeaderText(true, OnlinePrefix + rate + MbpsSuffix) == rate + MbpsSuffix
  {
    var s := OnlinePrefix + rate + MbpsSuffix;
    assert s[6] == ':';
    assert s == "Online" + [':'] + (" " + rate + MbpsSuffix);
    LastFieldOfJoin("Online", ':', " " + rate + MbpsSuffix);
    var t := rate + MbpsSuffix;
    assert " " + rate + MbpsSuffix == " " + t;
    StripLeadingBlank(t);
  }

  /** The header colour: amber whenever the status mentions "Obstructed"
      (even an online one), else green when it mentions "Online", else red;
      red when offline. */
  function HeaderColour(online: bool, statusText: string): (r: string)
    ensures r == Amber <==> online && Contains(statusText, "Obstructed")
    ensures r == Green <==> online && !Contains(statusText, "Obstructed") && Contains(statusText, "Online")
    ensures r == Red <==> !online || (!Contains(statusText, "Obstructed") && !Contains(statusText, "Online"))
  {
    if !online then Red
    else if Contains(statusText, "Obstructed") then Amber
    else if Contains(statusText, "Online") then Green
    else Red
  }

  /** The header colour of each tray status: the obstructed online status is
      amber, and an idle dish reads red in the header although its tray icon
      is green. */
  lemma HeaderColourOfVerdicts(rate: string)
    requires forall i :: 0 <= i < |rate| ==> rate[i] != 'O'
    ensures HeaderColour(true, OnlinePrefix + rate + MbpsSuffix) == Green
    ensures HeaderColour(true, "Online (Obstructed)") == Amber
    ensures HeaderColour(true, "Obstructed") == Amber
    ensures HeaderColour(true, "Idle") == Red
    ensures Classify(0.0, 0.0, 0.0, rate) == Verdict("Idle", IconGreen)
  {
    var s := OnlinePrefix + rate + MbpsSuffix;
    assert s[..6] == "Online";
    ContainsAt(s, "Online", 0);
    ContainsIffOccurs(s, "Obstructed");
    forall i ensures !OccursAt(s, "Obstructed", i) {
      if 0 <= i && i + 10 <= |s| {
        assert s[i..i + 10][0] == s[i];
        assert s[i..i + 10][1] == s[i + 1];
        if i >= 8 && i < 8 + |rate| {
          assert s[i] == rate[i - 8];
        }
      }
    }
    var o := "Online (Obstructed)";
    assert o[8..18] == "Obstructed";
    ContainsAt(o, "Obstructed", 8);
    ContainsAt("Obstructed", "Obstructed", 0);
    NotContainsWithoutFirstChar("Idle", "Obstructed");
    NotContainsWithoutFirstChar("Idle", "Online");
  }

  /** The obstruction progress bar: filled to `pct / 100`, amber above 1 %
      and green otherwise. */
  datatype Bar = Bar(fraction: real, colour: string)

  function ProgressBar(pct: real): (r: Bar)
    ensures r.fraction * 100.0 == pct
    ensures r.colour == Amber <==> pct > 1.0
    ensures r.colour == Green <==> pct <= 1.0
  {
    Bar(pct / 100.0, if pct > 1.0 then Amber else Green)
  }

  /** What one `update_dashboard` shows in the header, the visibility tab
      and the software, hardware and heater rows. */
  datatype Dashboard = Dashboard(header: string, headerColour: string, bar: Bar, software: string,
                                 hardware: string, heater: string)

  function Redraw(stats: TrayStats): (r: Dashboard)
    ensures !stats.online ==> r.header == "DISCONNECTED" && r.headerColour == Red
    ensures stats.online && ':' !in stats.statusText ==> r.header == stats.statusText
    ensures r.header == HeaderText(stats.online, stats.statusText)
    ensures r.headerColour == Amber <==> stats.online && Contains(stats.statusText, "Obstructed")
    ensures r.headerColour == Green <==>
      stats.online && !Contains(stats.statusText, "Obstructed") && Contains(stats.statusText, "Online")
    ensures r.headerColour == Red <==>
      !stats.online || (!Contains(stats.statusText, "Obstructed") && !Contains(stats.statusText, "Online"))
    ensures r.bar.fraction * 100.0 == stats.obstructedPct
    ensures r.bar.colour == Amber <==> stats.obstructedPct > 1.0
    ensures '-' !in r.software && |r.software| <= |stats.software| && r.software == stats.software[..|r.software|]
    ensures |r.software| < |stats.software| ==> stats.software[|r.software|] == '-'
    ensures r.hardware == stats.hardware && r.heater == stats.heater
  {
    Dashboard(HeaderText(stats.online, stats.statusText),
              HeaderColour(stats.online, stats.statusText),
              ProgressBar(stats.obstructedPct),
              Dish.SoftwareLabel(stats.software),
              stats.hardware, stats.heater)
  }

  /** After a failed poll the dashboard shows "DISCONNECTED" in red while the
      visibility bar and the software, hardware and heater rows still show the
      kept readings. */
  lemma RedrawAfterFailure(app: App, fmt: real -> string)
    requires History.Valid(app.history)
    ensures var d := Redraw(Tick(app, None, fmt).stats);
      && d.header == "DISCONNECTED" && d.headerColour == Red
      && d.bar == ProgressBar(app.stats.obstructedPct)
      && d.software == Dish.SoftwareLabel(app.stats.software)
      && d.hardware == app.stats.hardware && d.heater == app.stats.heater
  {
    var s := Tick(app, None, fmt).stats;
    assert s.obstructedPct == app.stats.obstructedPct && s.software == app.stats.software;
    assert s.hardware == app.stats.hardware && s.heater == app.stats.heater;
  }

  /** The tray and the backend start from states that satisfy the
      agreement `TrayMatchesBackend` carries forward, so from start-up on
      they keep identical series and readings. */
  lemma StartUpAgrees(fmt: real -> string)
    ensures Initial().history == Backend.Initial().history
    ensures AgreesWith(Initial().stats, Backend.Initial().stats)
    ensures Initial().stats.statusText == TextFor(Backend.Initial().stats, fmt)
  {
    Backend.LabelsDistinct(Backend.Online, Backend.Online);
  }
}
