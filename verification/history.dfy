/** The two throughput series both pollers keep for charting: download and
    upload in Mbps, `deque([0] * HISTORY_LEN, maxlen = HISTORY_LEN)` each. */
module History {

  import Ring

  /** `HISTORY_LEN`: one minute of two-second ticks. */
  const Len: nat := 30

  datatype History = History(down: seq<real>, up: seq<real>)

  /** `[0] * n`. */
  function Zeros(n: nat): (r: seq<real>)
    ensures |r| == n
    ensures forall i :: 0 <= i < n ==> r[i] == 0.0
  {
    seq(n, i => 0.0)
  }

  /** Both deques are created full, so they always hold `Len` samples. */
  predicate Valid(h: History)
  {
    |h.down| == Len && |h.up| == Len
  }

  /** Thirty zeros in each series. */
  function Initial(): (r: History)
    ensures Valid(r)
    ensures forall i :: 0 <= i < Len ==> r.down[i] == 0.0 && r.up[i] == 0.0
  {
    History(Zeros(Len), Zeros(Len))
  }

  /** One tick's `history_down.append(d)` and `history_up.append(u)`. */
  function Record(h: History, d: real, u: real): (r: History)
    requires Valid(h)
    ensures Valid(r)
    ensures r.down[Len - 1] == d && r.up[Len - 1] == u
    ensures r.down[..Len - 1] == h.down[1..] && r.up[..Len - 1] == h.up[1..]
  {
    History(Ring.Push(h.down, d, Len), Ring.Push(h.up, u, Len))
  }

  /** Every sample in both series is non-negative. */
  predicate NonNegative(h: History)
  {
    && (forall i :: 0 <= i < |h.down| ==> h.down[i] >= 0.0)
    && (forall i :: 0 <= i < |h.up| ==> h.up[i] >= 0.0)
  }
}
