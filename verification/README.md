# Starlink dashboard poller: a Dafny model

The repository polls a Starlink dish's local diagnostic gRPC service every two
seconds and shows the result in two ways: an HTTP backend (`backend/server.py`)
read by an Electron dashboard (`renderer/app.js`), and a desktop tray app with
its own dashboard window (`starlink_tray.py`). Its logic is one **poll tick**,
written twice. A tick takes a status reply and either normalises and
classifies it or records a failure. Both variants keep two rolling 30-sample
throughput series. Around the tick sit a few pure presentation decisions.

This project models that logic as pure functions over immutable values:

- `Wrappers`: `Option`, for absent reply fields and for failed polls.
- `Dish`: one status reply with every field the pollers read, each optional,
  and the software-version label both dashboards show.
- `Text`: the string operations the sources use. These are Python `in` and
  JavaScript `includes`, single-character `split`, Python `strip()`, ASCII
  upper-casing and decimal rendering of integers.
- `Ring`: `deque(maxlen = n)` as an append-and-evict sequence, with the
  rolling window as its reference definition.
- `History`: the download and upload series, created as thirty zeros each.
- `Backend`: the backend's stats record, the status rule, the normaliser,
  one tick, runs of ticks, and `GET /api/history`.
- `Logs`: the backend's 200-entry log store.
- `Tray`: the tray's stats record, its copy of the tick (icon colour and
  title included), and its dashboard's header and progress bar. One lemma shows that the tray and the backend, fed the same replies,
  keep identical series and readings.
- `Renderer`: uptime formatting, the header colour, the obstruction bar, the
  software label, the log time and one refresh of the Electron dashboard.

Rates, latency, obstruction and angles are Dafny `real`s. A poll's outcome
is `Some(reply)` when the gRPC call and its decoding succeeded, and `None`
when anything inside the `try` raised. Number formatting (`:.1f`,
`toFixed`) is an opaque parameter `fmt: real -> string`.

## Model

| member | source | states |
|---|---|---|
| Text.ContainsIffOccurs | starlink_tray.py:301-302 | the left-to-right substring scan used for `in` / `includes` is true exactly when the pattern occurs at some index |
| Text.FirstField | renderer/app.js:160-161 | `split(sep)[0]` is the longest separator-free prefix: a prefix, without `sep`, followed by `sep` or the end |
| Text.LastField | starlink_tray.py:299 | `split(sep)[-1]` is the longest separator-free suffix: a suffix, without `sep`, preceded by `sep` or the start |
| Text.SecondField | renderer/app.js:199 | `split(sep)[1]` exists exactly when `sep` occurs; it is the text starting right after the first separator and running to the next separator or the end, and holds no `sep` |
| Text.Strip | starlink_tray.py:299 | `strip()` yields a slice of the input surrounded only by whitespace, whose own ends are not whitespace |
| Text.AsciiUpper | renderer/app.js:123-124 | upper-casing keeps the length; a lower-case letter becomes the upper-case letter at the same alphabet position; every other character is kept; no lower-case letter remains |
| Text.AsciiUpperIdempotent | renderer/app.js:123-124 | upper-casing an already upper-cased header changes nothing |
| Text.AsciiUpperFixed | renderer/app.js:123-124 | upper-casing leaves a text unchanged exactly when it holds no lower-case letter |
| Text.DecimalRoundTrip | renderer/app.js:106-108 | the integer printed in the uptime text reads back as the same number |
| Ring.Push | backend/server.py:58-59 | an append to a `maxlen` deque grows it by one until full, then drops the oldest; the new element is last; the result is the newest `maxlen` elements of old contents plus the new one |
| Ring.PushAllIsWindow | backend/server.py:58-59 | after any sequence of appends the deque is exactly the newest `maxlen` elements of everything it received, oldest first |
| Ring.CapacityThreeExample | backend/server.py:58-59 | a capacity-3 deque receiving 1, 2, 3, 4 holds 2, 3, 4 |
| History.Initial | backend/server.py:58-59 | both series start as thirty zeros |
| History.Record | backend/server.py:111-112 | one sample enters each series at the newest end, the oldest leaves, and each series keeps length 30 |
| Backend.LabelsDistinct | backend/server.py:100-108 | the four verdict texts are pairwise distinct, and none is "Connecting..." or "Disconnected" |
| Backend.Classify | backend/server.py:100-108 | Online iff (down > 0 or ping > 0) and pct <= 5; Online (Obstructed) iff (down > 0 or ping > 0) and pct > 5; Obstructed iff down, ping <= 0 and pct > 0; Idle iff down, ping, pct <= 0 |
| Backend.Normalize | backend/server.py:79-97 | a successful reply marks the dish online; multiplying down/up by 1,000,000 recovers the reported bits/s; pct / 100 recovers the fraction; every other field is the reply's value or, when absent, 0, "Unknown" (hardware, software) or "UNKNOWN" (heater); plausible replies give non-negative rates and a percentage in [0, 100]; the text is the verdict of the rule |
| Backend.NormalizeEmpty | backend/server.py:79-97 | a reply with no fields at all normalises to online, "Idle", zero readings, "Unknown" hardware and software and an "UNKNOWN" heater |
| Backend.NormalizeExample | backend/server.py:79-108 | 50 Mbit/s down, 10 up, 25 ms, 0.02 obstructed gives 50.0, 10.0, 25, 2.0 % and "Online" |
| Backend.Initial | backend/server.py:40-59 | the backend starts offline with "Connecting...", every reading zero, "--" for hardware, software and heater, and thirty zeros per series |
| Backend.Tick | backend/server.py:78-123 | success replaces the whole record with the normalised reply; failure sets offline and "Disconnected" and keeps every reading; each tick shifts exactly one sample into each series, the rate on success and 0 on failure |
| Backend.Run | backend/server.py:63-125 | any number of iterations of the poll loop keeps both series at exactly 30 samples |
| Backend.TickRecords | backend/server.py:110-123 | a tick's series are the old series with its download and upload sample appended |
| Backend.RunPushesDown | backend/server.py:111-122 | over many ticks the download series receives the ticks' samples in order |
| Backend.RunPushesUp | backend/server.py:112-123 | over many ticks the upload series receives the ticks' samples in order |
| Backend.RunHistoryIsWindow | backend/server.py:61-125 | after any run both series are the newest 30 of their old contents plus the run's samples, so they stay aligned tick for tick |
| Backend.RunFromStart | backend/server.py:58-59 | from start-up the series are the last 30 of thirty zeros followed by every sample since |
| Backend.RunStatusFromLastTick | backend/server.py:82-121 | the last tick alone decides online and the status text, and "Connecting..." never returns after a tick |
| Backend.FailuresKeepReadings | backend/server.py:116-121 | any number of failed polls leaves every reading of the last record untouched |
| Backend.ThreeFailures | backend/server.py:116-123 | three failures in a row: offline, "Disconnected", readings kept, newest three samples of both series zero |
| Backend.RunKeepsHistoryNonNegative | backend/server.py:79-80 | with plausible replies both series stay non-negative |
| Backend.GetHistory | backend/server.py:151-157 | `/api/history` returns both series, oldest first, each of length 30 |
| Logs.Timestamp | backend/server.py:23 | a timestamp is the date, one blank, then the time |
| Logs.FormatRecord | backend/server.py:31 | a captured message is the level, " - ", the logger name, " - " and the logged text, in that order |
| Logs.FormatRecordReadBack | backend/server.py:31 | the level is recovered as the first blank-separated word of the message, and a one-word logged text as the last |
| Logs.Emit | backend/server.py:19-27 | capturing a record appends one entry with that level, timestamp and formatted message, drops the oldest only when 200 are held, and keeps at most 200 |
| Logs.CaptureKeepsNewest | backend/server.py:17 | the log store holds the newest 200 entries ever captured, in order, with the newest last |
| Tray.Initial | starlink_tray.py:33-67 | the tray starts offline with "Connecting...", every reading zero, "--" for hardware, software, country and heater, GPS validity and SNR false, thirty zeros per series, a gray icon and the title "Starlink Stats: Connecting..." |
| Tray.Classify | starlink_tray.py:132-144 | the tray branches as the backend's rule; the icon is yellow iff the verdict is obstructed (online or not), else green; the plain online text is "Online: <rate> Mbps", the others are the backend's texts |
| Tray.Parse | starlink_tray.py:104-123 | the tray parses every shared field exactly as the backend does, sets online, copies valid_s (default 0), country (default "--"), GPS validity and SNR (default false) from the reply, and takes the tray verdict's text |
| Tray.Title | starlink_tray.py:156-157 | the title is never longer than 63; it is "Starlink: " + status iff the status has at most 53 characters, else its first 60 characters followed by "..." |
| Tray.Tick | starlink_tray.py:89-158 | success re-parses the record and the icon follows the verdict; failure sets offline, "Disconnected", a red icon and keeps every reading; one sample enters each series; the title follows the new status |
| Tray.Run | starlink_tray.py:88-163 | any number of iterations of the poll loop keeps both series at exactly 30 samples |
| Tray.TrayMatchesBackend | starlink_tray.py:104-152 | fed the same replies from the same state, tray and backend keep identical series, identical readings and online flag, and the same status text except the rate in a plain online text |
| Tray.HeaderText | starlink_tray.py:298-305 | offline shows "DISCONNECTED"; online without ':' shows the status; with ':' the shown text has no ':' and no surrounding whitespace |
| Tray.OnlineHeaderShowsRate | starlink_tray.py:299 | for "Online: <rate> Mbps" the header shows "<rate> Mbps" |
| Tray.HeaderColour | starlink_tray.py:301-303 | amber iff online and the status mentions "Obstructed"; green iff online, mentions "Online" and not "Obstructed"; red otherwise |
| Tray.HeaderColourOfVerdicts | starlink_tray.py:301-302 | the plain online text is green, both obstructed texts are amber, and "Idle" is red in the header although its icon is green |
| Tray.ProgressBar | starlink_tray.py:367-371 | the bar is filled to pct / 100, amber iff pct > 1, green iff pct <= 1 |
| Tray.Redraw | starlink_tray.py:295-378 | the header is the one Tray.HeaderText describes: "DISCONNECTED" when offline; the colour is amber iff online and obstructed, green iff online, not obstructed and "Online", red otherwise; the bar holds pct / 100 and is amber iff pct > 1; the software row is the longest '-'-free prefix of the version; hardware and heater are copied |
| Tray.RedrawAfterFailure | starlink_tray.py:146-152 | after a failed tick the dashboard shows "DISCONNECTED" in red, and its bar, software, hardware and heater rows still come from the kept readings |
| Tray.StartUpAgrees | starlink_tray.py:33-67 | the tray and backend start-up states share their series, agree on every reading, and the tray text is the backend's, so the agreement of Tray.TrayMatchesBackend holds from start-up |
| Renderer.JsRem | renderer/app.js:103-104 | JavaScript's `%` is the remainder of the quotient rounded toward zero: a == b * trunc(a / b) + r, with r in [0, b) for a non-negative dividend and in (-b, 0] for a negative one |
| Renderer.UptimeParts | renderer/app.js:101-104 | for s >= 0: days >= 0, hours < 24, minutes < 60, and days, hours and minutes add up to s less under a minute |
| Renderer.DecomposeUptime | renderer/app.js:102-104 | the div/mod decomposition by 86400, 3600 and 60 is bounded and covers s to within 60 seconds |
| Renderer.FormatUptime | renderer/app.js:101-109 | for s >= 0: under an hour the text is "<m>m", under a day "<h>h <m>m", otherwise "<d>d <h>h <m>m", in terms of the seconds themselves |
| Renderer.FormatUptimeMinutes | renderer/app.js:101-109 | the uptime text ends in "m", and the digits after its last blank read back as the minutes within the hour |
| Renderer.StatusColour | renderer/app.js:125-131 | green iff the status mentions "Online"; yellow iff it mentions "Obstructed" but not "Online"; red iff neither |
| Renderer.StatusColourOfLabel | renderer/app.js:125-131 | "Online" and "Online (Obstructed)" are green, "Obstructed" yellow, "Idle" red |
| Renderer.StatusColourOffline | renderer/app.js:125-131 | "Connecting..." and "Disconnected" are red |
| Renderer.PrecedenceOppositeToTray | renderer/app.js:125-131 | "Online (Obstructed)" is green on this dashboard and amber in the tray's header |
| Renderer.ObstructionBar | renderer/app.js:150-156 | the bar width is min(pct, 100), so never above 100 and equal to pct when pct <= 100; yellow iff pct > 1 |
| Dish.SoftwareLabel | starlink_tray.py:375 | both dashboards label the software version with its longest prefix free of '-': a prefix of the version, followed by '-' or the end |
| Renderer.LogTime | renderer/app.js:199 | the shown time exists iff the timestamp has a blank; it is the blank-free token right after the first blank |
| Renderer.LogTimeOfCapturedEntry | renderer/app.js:199 | a timestamp written by the backend shows its time of day |
| Renderer.Refresh | renderer/app.js:112-178 | a successful refresh shows the upper-cased status and redraws header colour, uptime, bar, software label, hardware and heater from the record; a failed one shows "DISCONNECTED" in red and leaves every other element as it was |
| Renderer.RefreshIdempotent | renderer/app.js:112-178 | refreshing twice with the same outcome shows what refreshing once shows |
| Renderer.RefreshForgetsFailure | renderer/app.js:112-178 | what a successful refresh shows depends on the record alone, even right after a failure |

## Left out

- The gRPC client, protobuf decoding and `MessageToDict` are foreign calls. A reply is a `Dish.Snapshot` of optional fields, and a failed call is `None`.
- A reply field holding a value `float()` or `int()` cannot convert is not modelled: snapshot fields are already typed. The backend would treat it as a failed poll. The tray assigns fields one by one, so it would keep the fields parsed before the failing one.
- Uptime is an integer. The dish reports a 64-bit integer that `MessageToDict` renders as a decimal string, so `float()` of it is integral.
- IEEE floating point (rounding of the division by 1,000,000, NaN, infinities) is not modelled. All quantities are exact reals.
- Number formatting (`:.1f`, `:.2f`, `toFixed`, `Math.round`) and the tray's `timedelta` uptime text are left out. The tray's rate text is an opaque `fmt` parameter. Integer rendering inside `formatUptime` is modelled.
- Concurrency is left out: the asyncio task, the poll thread, `sleep`, cancellation and reader/writer atomicity. A tick is one pure function. One consequence is not represented: the tray starts its poll thread before it creates `self.icon`, and its icon update (starlink_tray.py:154) is outside the `try`.
- FastAPI routing, CORS, `/health` and uvicorn are HTTP plumbing. The renderer posts to `/api/logs/clear`, which the backend does not define; that route is not modelled.
- The log lines a tick writes ("Polled: ...", "Poll error: ...") are not connected to the tick. `Logs.Emit` models any captured record, and the clock's date and time are parameters.
- Tray.Redraw: covers the header, its colour, the visibility bar and the software, hardware and heater rows. The uptime, rate, ping, obstruction percentage, GPS, Ethernet and angle labels of `update_dashboard` are formatted numbers and are not modelled, nor is the chart.
- Tk, customtkinter, pystray widgets, `create_image` drawing, matplotlib and spline smoothing, Chart.js and DOM updates, and `escapeHtml` are UI and rendering.
- Renderer.Refresh: covers the header, header colour, uptime, obstruction bar, software, hardware and heater labels. The formatted numeric labels (rates, ping, obstruction percentage, angles, GPS satellites, Ethernet speed) and the chart are not modelled.
- Text.AsciiUpper: JavaScript `toUpperCase` also maps non-ASCII letters. Only ASCII is modelled; the renderer upper-cases only the backend's status texts, which are all ASCII.
- Tray.HeaderText: when the status contains ':', the contract says only that the shown text has no ':' and no surrounding whitespace, not which suffix it is. Tray.OnlineHeaderShowsRate pins it down for the tray's own online text.
- main.js (the Electron window, tray lifecycle and child-process management) is not part of this model.
