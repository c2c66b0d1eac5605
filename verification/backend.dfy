/** The HTTP backend's poller (`backend/server.py`): the process-wide stats
    record, the two history deques, and one tick of `poll_starlink`, with the
    gRPC round trip replaced by its outcome (`Some(snapshot)` when the call
    and its decoding succeeded, `None` when anything in the `try` raised). */
module Backend {

  import opened Wrappers
  import opened Dish
  import Ring
  import History

  /** bits/s per Mbps. */
  const BpsPerMbps: real := 1_000_000.0
  /** The obstruction percentage above which an online dish counts as obstructed. */
  const ObstructedOnlineAbove: real := 5.0

  const ConnectingText := "Connecting..."
  const DisconnectedText := "Disconnected"

  /** The four verdicts of a successful poll. */
  datatype Status = Online | OnlineObstructed | Obstructed | Idle

  /** The `status_text` each verdict is published as. */
  function Label(st: Status): string
  {
    match st
    case Online => "Online"
    case OnlineObstructed => "Online (Obstructed)"
    case Obstructed => "Obstructed"
    case Idle => "Idle"
  }

  /** Every status text is distinct from the others and from the two texts
      no successful poll produces. */
  lemma LabelsDistinct(a: Status, b: Status)
    ensures Label(a) == Label(b) <==> a == b
    ensures Label(a) != ConnectingText && Label(a) != DisconnectedText
  {
  }

  /** The ordered status rule: traffic or latency means online (obstructed
      above 5 %); otherwise any obstruction means obstructed; otherwise idle. */
  function Classify(down: real, ping: real, pct: real): (r: Status)
    ensures r == Online <==> (down > 0.0 || ping > 0.0) && pct <= ObstructedOnlineAbove
    ensures r == OnlineObstructed <==> (down > 0.0 || ping > 0.0) && pct > ObstructedOnlineAbove
    ensures r == Obstructed <==> down <= 0.0 && ping <= 0.0 && pct > 0.0
    ensures r == Idle <==> down <= 0.0 && ping <= 0.0 && pct <= 0.0
  {
    if down > 0.0 || ping > 0.0 then
      if pct > ObstructedOnlineAbove then OnlineObstructed else Online
    else if pct > 0.0 then Obstructed
    else Idle
  }

  /** `current_stats`. */
  datatype Stats = Stats(
    online: bool,
    statusText: string,
    down: real,
    up: real,
    ping: real,
    obstructedPct: real,
    uptimeS: int,
    hardware: string,
    software: string,
    gpsSats: int,
    azimuth: real,
    elevation: real,
    tilt: real,
    heater: string,
    ethSpeed: int)

  /** The two stats records agree on every reading, that is on every field
      except `online` and `statusText`. */
  predicate SameReadings(a: Stats, b: Stats)
  {
    && a.down == b.down && a.up == b.up && a.ping == b.ping
    && a.obstructedPct == b.obstructedPct && a.uptimeS == b.uptimeS
    && a.hardware == b.hardware && a.software == b.software
    && a.gpsSats == b.gpsSats && a.azimuth == b.azimuth
    && a.elevation == b.elevation && a.tilt == b.tilt
    && a.heater == b.heater && a.ethSpeed == b.ethSpeed
  }

  /** The success branch: unit conversion, defaulting of absent fields, and
      the status verdict. */
  function Normalize(s: Snapshot): (r: Stats)
    ensures r.online
    ensures r.statusText == Label(Classify(r.down, r.ping, r.obstructedPct))
    ensures r.down * BpsPerMbps == s.downlinkThroughputBps.GetOr(0.0)
    ensures r.up * BpsPerMbps == s.uplinkThroughputBps.GetOr(0.0)
    ensures r.obstructedPct / 100.0 == s.fractionObstructed.GetOr(0.0)
    ensures r.ping == s.popPingLatencyMs.GetOr(0.0)
    ensures r.uptimeS == s.uptimeS.GetOr(0)
    ensures r.hardware == s.hardwareVersion.GetOr("Unknown")
    ensures r.software == s.softwareVersion.GetOr("Unknown")
    ensures r.gpsSats == s.gpsSats.GetOr(0)
    ensures r.azimuth == s.boresightAzimuthDeg.GetOr(0.0)
    ensures r.elevation == s.boresightElevationDeg.GetOr(0.0)
    ensures r.tilt == s.tiltAngleDeg.GetOr(0.0)
    ensures r.heater == s.snowMeltMode.GetOr("UNKNOWN")
    ensures r.ethSpeed == s.ethSpeedMbps.GetOr(0)
    ensures Plausible(s) ==>
      && r.down >= 0.0 && r.up >= 0.0 && r.ping >= 0.0
      && 0.0 <= r.obstructedPct <= 100.0
  {
    var down := s.downlinkThroughputBps.GetOr(0.0) / BpsPerMbps;
    var up := s.uplinkThroughputBps.GetOr(0.0) / BpsPerMbps;
    var ping := s.popPingLatencyMs.GetOr(0.0);
    var pct := s.fractionObstructed.GetOr(0.0) * 100.0;
    Stats(
      online := true,
      statusText := Label(Classify(down, ping, pct)),
      down := down,
      up := up,
      ping := ping,
      obstructedPct := pct,
      uptimeS := s.uptimeS.GetOr(0),
      hardware := s.hardwareVersion.GetOr("Unknown"),
      software := s.softwareVersion.GetOr("Unknown"),
      gpsSats := s.gpsSats.GetOr(0),
      azimuth := s.boresightAzimuthDeg.GetOr(0.0),
      elevation := s.boresightElevationDeg.GetOr(0.0),
      tilt := s.tiltAngleDeg.GetOr(0.0),
      heater := s.snowMeltMode.GetOr("UNKNOWN"),
      ethSpeed := s.ethSpeedMbps.GetOr(0))
  }

  /** The example reply of 50 Mbit/s down, 10 up, 25 ms and 2 % obstruction. */
  lemma NormalizeExample()
    ensures var r := Normalize(Empty.(
                       downlinkThroughputBps := Some(50_000_000.0),
                       uplinkThroughputBps := Some(10_000_000.0),
                       popPingLatencyMs := Some(25.0),
                       fractionObstructed := Some(0.02)));
      && r.down == 50.0 && r.up == 10.0 && r.ping == 25.0
      && r.obstructedPct == 2.0 && r.statusText == "Online"
  {
  }

  /** A reply without any field normalises to the documented defaults: an
      idle dish with zero readings, "Unknown" versions and an "UNKNOWN"
      heater mode. */
  lemma NormalizeEmpty()
    ensures Normalize(Empty) ==
      Stats(true, "Idle", 0.0, 0.0, 0.0, 0.0, 0, "Unknown", "Unknown", 0,
            0.0, 0.0, 0.0, "UNKNOWN", 0)
  {
  }

  /** Everything the backend shares with its readers. */
  datatype State = State(stats: Stats, history: History.History)

  /** Module-load state: offline, "Connecting...", placeholders, and thirty
      zeros in each series. */
  function Initial(): (r: State)
    ensures !r.stats.online && r.stats.statusText == ConnectingText
    ensures r.stats.hardware == "--" && r.stats.software == "--" && r.stats.heater == "--"
    ensures var s := r.stats;
      && s.down == 0.0 && s.up == 0.0 && s.ping == 0.0 && s.obstructedPct == 0.0
      && s.uptimeS == 0 && s.gpsSats == 0
      && s.azimuth == 0.0 && s.elevation == 0.0 && s.tilt == 0.0 && s.ethSpeed == 0
    ensures r.history == History.Initial()
  {
    State(
      Stats(false, ConnectingText, 0.0, 0.0, 0.0, 0.0, 0, "--", "--", 0,
            0.0, 0.0, 0.0, "--", 0),
      History.Initial())
  }

  /** The download sample a tick appends: the normalised rate, or 0 on failure. */
  function DownSample(fetched: Option<Snapshot>): real
  {
    match fetched
    case Some(s) => Normalize(s).down
    case None => 0.0
  }

  /** The upload sample a tick appends. */
  function UpSample(fetched: Option<Snapshot>): real
  {
    match fetched
    case Some(s) => Normalize(s).up
    case None => 0.0
  }

  /** One iteration of `poll_starlink`. On success every stats field is
      replaced; on failure only `online` and `statusText` change. Either way
      exactly one sample enters each series and the oldest leaves. */
  function Tick(st: State, fetched: Option<Snapshot>): (r: State)
    requires History.Valid(st.history)
    ensures History.Valid(r.history)
    ensures fetched.Some? ==> r.stats == Normalize(fetched.value)
    ensures fetched.None? ==>
      && !r.stats.online && r.stats.statusText == DisconnectedText
      && SameReadings(r.stats, st.stats)
    ensures r.history.down[History.Len - 1] == (if fetched.Some? then r.stats.down else 0.0)
    ensures r.history.up[History.Len - 1] == (if fetched.Some? then r.stats.up else 0.0)
    ensures r.history.down[..History.Len - 1] == st.history.down[1..]
    ensures r.history.up[..History.Len - 1] == st.history.up[1..]
  {
    match fetched
    case Some(s) =>
      var stats := Normalize(s);
      State(stats, History.Record(st.history, stats.down, stats.up))
    case None =>
      State(st.stats.(online := false, statusText := DisconnectedText),
            History.Record(st.history, 0.0, 0.0))
  }

  /** Consecutive ticks with the given outcomes, oldest first. */
  function Run(st: State, fetches: seq<Option<Snapshot>>): (r: State)
    requires History.Valid(st.history)
    ensures History.Valid(r.history)
    decreases |fetches|
  {
    if |fetches| == 0 then st else Run(Tick(st, fetches[0]), fetches[1..])
  }

  function DownSamples(fetches: seq<Option<Snapshot>>): (r: seq<real>)
    ensures |r| == |fetches|
  {
    seq(|fetches|, i requires 0 <= i < |fetches| => DownSample(fetches[i]))
  }

  function UpSamples(fetches: seq<Option<Snapshot>>): (r: seq<real>)
    ensures |r| == |fetches|
  {
    seq(|fetches|, i requires 0 <= i < |fetches| => UpSample(fetches[i]))
  }

  /** What a tick does to the series, in terms of the samples it appends. */
  lemma TickRecords(st: State, fetched: Option<Snapshot>)
    requires History.Valid(st.history)
    ensures Tick(st, fetched).history.down == Ring.Push(st.history.down, DownSample(fetched), History.Len)
    ensures Tick(st, fetched).history.up == Ring.Push(st.history.up, UpSample(fetched), History.Len)
  {
  }

  /** The samples of a run are those of its first tick followed by the rest. */
  lemma SamplesSplit(fetches: seq<Option<Snapshot>>)
    requires |fetches| > 0
    ensures DownSamples(fetches)[0] == DownSample(fetches[0])
    ensures DownSamples(fetches)[1..] == DownSamples(fetches[1..])
    ensures UpSamples(fetches)[0] == UpSample(fetches[0])
    ensures UpSamples(fetches)[1..] == UpSamples(fetches[1..])
  {
  }

  /** A run appends its download samples to the series one by one. */
  lemma {:induction false} RunPushesDown(st: State, fetches: seq<Option<Snapshot>>)
    requires History.Valid(st.history)
    ensures Run(st, fetches).history.down == Ring.PushAll(st.history.down, DownSamples(fetches), History.Len)
    decreases |fetches|
  {
    if |fetches| > 0 {
      var st' := Tick(st, fetches[0]);
      TickRecords(st, fetches[0]);
      SamplesSplit(fetches);
      RunPushesDown(st', fetches[1..]);
    }
  }

  /** A run appends its upload samples to the series one by one. */
  lemma {:induction false} RunPushesUp(st: State, fetches: seq<Option<Snapshot>>)
    requires History.Valid(st.history)
    ensures Run(st, fetches).history.up == Ring.PushAll(st.history.up, UpSamples(fetches), History.Len)
    decreases |fetches|
  {
    if |fetches| > 0 {
      var st' := Tick(st, fetches[0]);
      TickRecords(st, fetches[0]);
      SamplesSplit(fetches);
      RunPushesUp(st', fetches[1..]);
    }
  }

  /** After any run the two series are exactly the newest `Len` samples of
      what they held plus what the ticks appended, oldest first, and so stay
      aligned tick for tick. */
  lemma RunHistoryIsWindow(st: State, fetches: seq<Option<Snapshot>>)
    requires History.Valid(st.history)
    ensures Run(st, fetches).history.down == Ring.Last(st.history.down + DownSamples(fetches), History.Len)
    ensures Run(st, fetches).history.up == Ring.Last(st.history.up + UpSamples(fetches), History.Len)
  {
    RunPushesDown(st, fetches);
    RunPushesUp(st, fetches);
    Ring.PushAllIsWindow(st.history.down, DownSamples(fetches), History.Len);
    Ring.PushAllIsWindow(st.history.up, UpSamples(fetches), History.Len);
  }

  /** From start-up, the series are the last thirty of thirty zeros followed
      by every sample appended since. */
  lemma RunFromStart(fetches: seq<Option<Snapshot>>)
    ensures Run(Initial(), fetches).history.down == Ring.Last(History.Zeros(History.Len) + DownSamples(fetches), History.Len)
    ensures Run(Initial(), fetches).history.up == Ring.Last(History.Zeros(History.Len) + UpSamples(fetches), History.Len)
  {
    RunHistoryIsWindow(Initial(), fetches);
  }

  /** The last tick alone decides `online` and `statusText`; "Connecting..."
      never comes back once a tick has run. */
  lemma {:induction false} RunStatusFromLastTick(st: State, fetches: seq<Option<Snapshot>>)
    requires History.Valid(st.history) && |fetches| > 0
    ensures var r := Run(st, fetches); var last := fetches[|fetches| - 1];
      && (last.None? ==> !r.stats.online && r.stats.statusText == DisconnectedText)
      && (last.Some? ==> r.stats.online && r.stats == Normalize(last.value))
      && r.stats.statusText != ConnectingText
    decreases |fetches|
  {
    if |fetches| > 1 {
      RunStatusFromLastTick(Tick(st, fetches[0]), fetches[1..]);
    } else {
      var r := Tick(st, fetches[0]);
      assert Run(r, fetches[1..]) == r;
      if fetches[0].Some? {
        LabelsDistinct(Classify(r.stats.down, r.stats.ping, r.stats.obstructedPct), Online);
      }
    }
  }

  /** A run of failed polls keeps every reading of the last good poll. */
  lemma {:induction false} FailuresKeepReadings(st: State, fetches: seq<Option<Snapshot>>)
    requires History.Valid(st.history)
    requires forall i :: 0 <= i < |fetches| ==> fetches[i].None?
    ensures SameReadings(Run(st, fetches).stats, st.stats)
    decreases |fetches|
  {
    if |fetches| > 0 {
      FailuresKeepReadings(Tick(st, fetches[0]), fetches[1..]);
    }
  }

  /** Three failed polls in a row: disconnected, the readings kept, and the
      newest three samples of each series zero. */
  lemma ThreeFailures(st: State, fs: seq<Option<Snapshot>>)
    requires History.Valid(st.history) && fs == [None, None, None]
    ensures var r := Run(st, fs);
      && !r.stats.online && r.stats.statusText == DisconnectedText
      && SameReadings(r.stats, st.stats)
      && r.history.down[History.Len - 3..] == [0.0, 0.0, 0.0]
      && r.history.up[History.Len - 3..] == [0.0, 0.0, 0.0]
  {
    RunStatusFromLastTick(st, fs);
    FailuresKeepReadings(st, fs);
    RunHistoryIsWindow(st, fs);
    var zeros := [0.0, 0.0, 0.0];
    assert DownSamples(fs) == zeros && UpSamples(fs) == zeros;
    TailOfWindow(st.history.down, zeros);
    TailOfWindow(st.history.up, zeros);
  }

  /** The newest samples of a full window are the ones just appended. */
  lemma TailOfWindow(s: seq<real>, t: seq<real>)
    requires |s| == History.Len && |t| <= History.Len
    ensures |Ring.Last(s + t, History.Len)| == History.Len
    ensures Ring.Last(s + t, History.Len)[History.Len - |t|..] == t
  {
    var w := Ring.Last(s + t, History.Len);
    assert w == (s + t)[|t|..];
    assert w[History.Len - |t|..] == (s + t)[|s|..];
  }

  /** Plausible replies keep both series non-negative. */
  lemma {:induction false} RunKeepsHistoryNonNegative(st: State, fetches: seq<Option<Snapshot>>)
    requires History.Valid(st.history) && History.NonNegative(st.history)
    requires forall i :: 0 <= i < |fetches| && fetches[i].Some? ==> Plausible(fetches[i].value)
    ensures History.NonNegative(Run(st, fetches).history)
    decreases |fetches|
  {
    if |fetches| > 0 {
      var st' := Tick(st, fetches[0]);
      assert History.NonNegative(st'.history) by {
        assert forall i :: 0 <= i < History.Len - 1 ==> st'.history.down[i] == st.history.down[i + 1];
        assert forall i :: 0 <= i < History.Len - 1 ==> st'.history.up[i] == st.history.up[i + 1];
      }
      RunKeepsHistoryNonNegative(st', fetches[1..]);
    }
  }

  /** `GET /api/history`: both series, oldest first. */
  function GetHistory(st: State): (r: (seq<real>, seq<real>))
    requires History.Valid(st.history)
    ensures |r.0| == |r.1| == History.Len
    ensures r.0 == st.history.down && r.1 == st.history.up
  {
    (st.history.down, st.history.up)
  }
}
