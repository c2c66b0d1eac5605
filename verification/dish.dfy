/** One `get_status` reply of the dish, as the two pollers read it after
    `MessageToDict`: every field they look up, flattened out of its
    sub-message (`device_state`, `device_info`, `obstruction_stats`,
    `gps_stats`, `alignment_stats`, `config`), and `None` wherever the reply
    leaves the field (or its whole sub-message) out. */
module Dish {

  import opened Wrappers
  import Text

  datatype Snapshot = Snapshot(
    downlinkThroughputBps: Option<real>,
    uplinkThroughputBps: Option<real>,
    popPingLatencyMs: Option<real>,
    fractionObstructed: Option<real>,
    validS: Option<real>,
    uptimeS: Option<int>,
    hardwareVersion: Option<string>,
    softwareVersion: Option<string>,
    countryCode: Option<string>,
    gpsValid: Option<bool>,
    gpsSats: Option<int>,
    boresightAzimuthDeg: Option<real>,
    boresightElevationDeg: Option<real>,
    tiltAngleDeg: Option<real>,
    isSnrAboveNoiseFloor: Option<bool>,
    snowMeltMode: Option<string>,
    ethSpeedMbps: Option<int>)

  /** Readings a dish can physically report: non-negative rates and latency,
      and an obstruction fraction between 0 and 1. */
  predicate Plausible(s: Snapshot)
  {
    && s.downlinkThroughputBps.GetOr(0.0) >= 0.0
    && s.uplinkThroughputBps.GetOr(0.0) >= 0.0
    && s.popPingLatencyMs.GetOr(0.0) >= 0.0
    && 0.0 <= s.fractionObstructed.GetOr(0.0) <= 1.0
  }

  /** A reply that carries none of the fields. */
  const Empty := Snapshot(None, None, None, None, None, None, None, None, None,
                          None, None, None, None, None, None, None, None)

  /** The label both dashboards show for a software version such as
      "2024.05.01.mr12345-prod": the text up to its first '-'. */
  function SoftwareLabel(version: string): (r: string)
    ensures '-' !in r
    ensures |r| <= |version| && r == version[..|r|]
    ensures |r| < |version| ==> version[|r|] == '-'
  {
    Text.FirstField(version, '-')
  }
}
