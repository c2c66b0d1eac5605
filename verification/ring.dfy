/** Python's `collections.deque(maxlen = cap)` used as an append-only rolling
    window: the deque holds at most `cap` elements, oldest first, and an
    append to a full deque drops the oldest one. */
module Ring {

  /** The newest `n` elements of `s`, oldest first (all of `s` when it is
      shorter): the reference definition of a rolling window. */
  function Last<T>(s: seq<T>, n: nat): seq<T>
  {
    if |s| <= n then s else s[|s| - n..]
  }

  /** `deque.append(x)`. */
  function Push<T>(buf: seq<T>, x: T, cap: nat): (r: seq<T>)
    requires |buf| <= cap
    ensures |r| == if |buf| < cap then |buf| + 1 else cap
    ensures cap > 0 ==> r[|r| - 1] == x
    ensures |buf| == cap > 0 ==> r[..|r| - 1] == buf[1..]
    ensures |buf| < cap ==> r[..|r| - 1] == buf
    ensures r == Last(buf + [x], cap)
  {
    if |buf| < cap then buf + [x]
    else if cap == 0 then []
    else buf[1..] + [x]
  }

  /** Appends every element of `xs`, in order. */
  function PushAll<T>(buf: seq<T>, xs: seq<T>, cap: nat): (r: seq<T>)
    requires |buf| <= cap
    ensures |r| <= cap
    decreases |xs|
  {
    if |xs| == 0 then buf else PushAll(Push(buf, xs[0], cap), xs[1..], cap)
  }

  /** Trimming early and trimming late keep the same window. */
  lemma LastOfLast<T>(s: seq<T>, t: seq<T>, n: nat)
    ensures Last(Last(s, n) + t, n) == Last(s + t, n)
  {
    if |s| > n {
      var u := Last(s, n) + t;
      assert Last(u, n) == (s + t)[|s + t| - n..];
    }
  }

  /** After any number of appends the deque holds exactly the newest `cap`
      elements of everything it ever received, oldest first. */
  lemma {:induction false} PushAllIsWindow<T>(buf: seq<T>, xs: seq<T>, cap: nat)
    requires |buf| <= cap
    ensures PushAll(buf, xs, cap) == Last(buf + xs, cap)
    decreases |xs|
  {
    if |xs| > 0 {
      var b' := Push(buf, xs[0], cap);
      PushAllIsWindow(b', xs[1..], cap);
      LastOfLast(buf + [xs[0]], xs[1..], cap);
      assert buf + [xs[0]] + xs[1..] == buf + xs;
    } else {
      assert buf + xs == buf;
    }
  }

  /** A window of a non-empty sequence ends with its newest element. */
  lemma LastEndsWithNewest<T>(s: seq<T>, n: nat)
    requires |s| > 0 && n > 0
    ensures |Last(s, n)| == if |s| <= n then |s| else n
    ensures Last(s, n)[|Last(s, n)| - 1] == s[|s| - 1]
  {
  }

  /** The example of a capacity-3 buffer receiving 1, 2, 3, 4. */
  lemma CapacityThreeExample()
    ensures PushAll([], [1, 2, 3, 4], 3) == [2, 3, 4]
  {
    PushAllIsWindow([], [1, 2, 3, 4], 3);
    assert [] + [1, 2, 3, 4] == [1, 2, 3, 4];
  }
}
