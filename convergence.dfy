/** The convergence ("quine") detector: for each stride from 1 up to a bound,
    walk the history backward from its newest message at that stride, keep the
    first `minLen` messages, and report convergence at the first stride whose
    full-length slice passes the configured check. */
module Convergence {
  import opened Messages
  import opened Checks

  /** Detector configuration. `maxStep` may be below 1, in which case no stride is tried. */
  datatype Checker = Checker(minLen: nat, maxStep: int, metric: Metric)

  /** How far back from the newest message the k-th message of a stride-`s`
      walk lies: k * s, written as repeated addition (see OffsetIsProduct). */
  function Offset(k: nat, s: nat): nat
  {
    if k == 0 then 0 else Offset(k - 1, s) + s
  }

  lemma {:induction false} OffsetIsProduct(k: nat, s: nat)
    ensures Offset(k, s) == k * s
  {
    if k > 0 {
      OffsetIsProduct(k - 1, s);
    }
  }

  /** The history read backward at stride `s` (the slice h[::-s]), newest
      message first: the messages at indices |h|-1, |h|-1-s, |h|-1-2s, ...
      that are still in range. */
  function Strided(h: seq<Message>, s: nat): (r: seq<Message>)
    requires s >= 1
    ensures |h| == 0 ==> r == []
    ensures |h| > 0 ==> |r| >= 1 && Offset(|r| - 1, s) < |h| <= Offset(|r|, s)
    decreases |h|
  {
    if |h| == 0 then []
    else if |h| <= s then [h[|h| - 1]]
    else [h[|h| - 1]] + Strided(h[..|h| - s], s)
  }

  /** The k-th message of the walk is the one k strides back from the newest. */
  lemma StridedAt(h: seq<Message>, s: nat, k: nat)
    requires s >= 1 && k < |Strided(h, s)|
    ensures k * s < |h| && Strided(h, s)[k] == h[|h| - 1 - k * s]
  {
    StridedAtOffset(h, s, k);
    OffsetIsProduct(k, s);
  }

  lemma {:induction false} StridedAtOffset(h: seq<Message>, s: nat, k: nat)
    requires s >= 1 && k < |Strided(h, s)|
    ensures Offset(k, s) < |h| && Strided(h, s)[k] == h[|h| - 1 - Offset(k, s)]
    decreases |h|
  {
    if k > 0 {
      StridedAtOffset(h[..|h| - s], s, k - 1);
    }
  }

  /** The number of messages a stride-`s` backward walk visits is the ceiling of |h| / s. */
  lemma StridedLength(h: seq<Message>, s: nat)
    requires s >= 1
    ensures |Strided(h, s)| == (|h| + s - 1) / s
  {
    var c := |Strided(h, s)|;
    if |h| > 0 {
      OffsetIsProduct(c - 1, s);
      OffsetIsProduct(c, s);
      DivBetween(|h| + s - 1, s, c);
    }
  }

  lemma DivBetween(x: int, s: int, c: int)
    requires s >= 1 && c * s <= x < c * s + s
    ensures x / s == c
  {
    var q := x / s;
    assert q * s <= x < q * s + s;
    if q < c {
      MulMono(q + 1, c, s);
    } else if q > c {
      MulMono(c + 1, q, s);
    }
  }

  lemma MulMono(a: int, b: int, s: int)
    requires a <= b && s >= 0
    ensures a * s <= b * s
  {
  }

  /** The slice a detector examines at stride `s`: the backward walk
      truncated to its first `minLen` messages. */
  function Window(h: seq<Message>, s: nat, minLen: nat): seq<Message>
    requires s >= 1
  {
    var walk := Strided(h, s);
    if |walk| <= minLen then walk else walk[..minLen]
  }

  /** The window holds min(minLen, walk length) messages, and its k-th is
      the message k strides back from the newest. */
  lemma WindowShape(h: seq<Message>, s: nat, minLen: nat)
    requires s >= 1
    ensures var w, n := Window(h, s, minLen), |Strided(h, s)|;
      && |w| == (if n <= minLen then n else minLen)
      && forall k :: 0 <= k < |w| ==> k * s < |h| && w[k] == h[|h| - 1 - k * s]
  {
    var w := Window(h, s, minLen);
    forall k | 0 <= k < |w| ensures k * s < |h| && w[k] == h[|h| - 1 - k * s] {
      StridedAt(h, s, k);
    }
  }

  /** At stride 1 the window is the last `minLen` messages, newest first. */
  lemma StrideOneWindow(h: seq<Message>, minLen: nat)
    requires minLen <= |h|
    ensures var w := Window(h, 1, minLen);
      |w| == minLen && forall k :: 0 <= k < minLen ==> w[k] == h[|h| - 1 - k]
  {
    StridedLength(h, 1);
    WindowShape(h, 1, minLen);
  }

  /** The window never holds more messages than the history. */
  lemma WindowNoLongerThanHistory(h: seq<Message>, s: nat, minLen: nat)
    requires s >= 1
    ensures |Window(h, s, minLen)| <= |h|
  {
    var c := |Strided(h, s)|;
    if |h| > 0 {
      OffsetAtLeast(c - 1, s);
    }
  }

  lemma {:induction false} OffsetAtLeast(k: nat, s: nat)
    requires s >= 1
    ensures Offset(k, s) >= k
  {
    if k > 0 {
      OffsetAtLeast(k - 1, s);
    }
  }

  lemma {:induction false} OffsetMono(j: nat, k: nat, s: nat)
    requires j <= k
    ensures Offset(j, s) <= Offset(k, s)
  {
    if j < k {
      OffsetMono(j, k - 1, s);
    }
  }

  /** Stride `s` is long enough to be examined and its slice passes the check. */
  predicate Passes(c: Checker, sc: Scorers, h: seq<Message>, s: nat)
    requires s >= 1
  {
    var w := Window(h, s, c.minLen);
    |w| >= c.minLen && Check(c.metric, sc, w)
  }

  /** The first `t` in [from, bound] with `ok(t)`, scanning in increasing order. */
  function FirstFrom(ok: nat -> bool, from: nat, bound: int): Option<nat>
    decreases bound - from
  {
    if from > bound then None
    else if ok(from) then Some(from)
    else FirstFrom(ok, from + 1, bound)
  }

  /** The scan reports a `t` in range with `ok(t)` and no such `t` before it,
      or reports none when no `t` in range qualifies. */
  lemma {:induction false} FirstFromIsFirst(ok: nat -> bool, from: nat, bound: int)
    ensures var r := FirstFrom(ok, from, bound);
      && (r.Some? ==> from <= r.value <= bound && ok(r.value))
      && (r.Some? ==> forall t :: from <= t < r.value ==> !ok(t))
      && (r.None? ==> forall t :: from <= t <= bound ==> !ok(t))
    decreases bound - from
  {
    if from <= bound && !ok(from) {
      FirstFromIsFirst(ok, from + 1, bound);
    }
  }

  /** Whether a stride passes, as a test on strides (strides below 1 never pass). */
  function StrideTest(c: Checker, sc: Scorers, h: seq<Message>): nat -> bool
  {
    s => s >= 1 && Passes(c, sc, h, s)
  }

  /** The first stride in [from, maxStep] that passes, scanning in increasing order. */
  function FirstStride(c: Checker, sc: Scorers, h: seq<Message>, from: nat): Option<nat>
    requires from >= 1
  {
    FirstFrom(StrideTest(c, sc, h), from, c.maxStep)
  }

  /** The stride scan reports a stride in range that passes and has no passing
      stride before it, or reports none when no stride in range passes. */
  lemma FirstStrideIsFirst(c: Checker, sc: Scorers, h: seq<Message>, from: nat)
    requires from >= 1
    ensures var r := FirstStride(c, sc, h, from);
      && (r.Some? ==> from <= r.value <= c.maxStep && Passes(c, sc, h, r.value))
      && (r.Some? ==> forall t :: from <= t < r.value ==> !Passes(c, sc, h, t))
      && (r.None? ==> forall t :: from <= t <= c.maxStep ==> !Passes(c, sc, h, t))
  {
    var ok := StrideTest(c, sc, h);
    FirstFromIsFirst(ok, from, c.maxStep);
    var r := FirstStride(c, sc, h, from);
    var last := if r.Some? then r.value - 1 else c.maxStep;
    forall t | from <= t <= last ensures !Passes(c, sc, h, t) {
      assert !ok(t);
    }
  }

  /** The detector's verdict on a history. */
  predicate Converged(c: Checker, sc: Scorers, h: seq<Message>)
  {
    FirstStride(c, sc, h, 1).Some?
  }

  /** The detector fires iff some stride in [1, maxStep] passes. */
  lemma ConvergedIff(c: Checker, sc: Scorers, h: seq<Message>)
    ensures Converged(c, sc, h) <==> exists s :: 1 <= s <= c.maxStep && Passes(c, sc, h, s)
  {
    FirstStrideIsFirst(c, sc, h, 1);
    var r := FirstStride(c, sc, h, 1);
    if r.Some? {
      assert Passes(c, sc, h, r.value);
    }
  }

  /** The check is only ever applied to a slice of exactly `minLen` messages,
      holding every `s`-th message counted back from the newest. */
  lemma PassingSliceShape(c: Checker, sc: Scorers, h: seq<Message>, s: nat)
    requires s >= 1 && Passes(c, sc, h, s)
    ensures |Window(h, s, c.minLen)| == c.minLen
    ensures c.minLen == 0 || (c.minLen - 1) * s < |h|
  {
    var n := |Strided(h, s)|;
    if c.minLen > 0 {
      OffsetMono(c.minLen - 1, n - 1, s);
      OffsetIsProduct(c.minLen - 1, s);
    }
  }

  /** A history shorter than `minLen` never converges, whatever the metric and strides. */
  lemma ShortHistoryNeverConverges(c: Checker, sc: Scorers, h: seq<Message>)
    requires |h| < c.minLen
    ensures !Converged(c, sc, h)
  {
    FirstStrideIsFirst(c, sc, h, 1);
    var r := FirstStride(c, sc, h, 1);
    if r.Some? {
      WindowNoLongerThanHistory(h, r.value, c.minLen);
      assert false;
    }
  }

  /** The scan stops no later than any passing stride in range, so when
      several strides pass the smallest of them is reported. */
  lemma SmallestStrideWins(c: Checker, sc: Scorers, h: seq<Message>, s: nat)
    requires 1 <= s <= c.maxStep && Passes(c, sc, h, s)
    ensures FirstStride(c, sc, h, 1).Some? && FirstStride(c, sc, h, 1).value <= s
  {
    FirstStrideIsFirst(c, sc, h, 1);
  }

  /** The detector loop: try strides in increasing order and stop at the first that passes. */
  method Detect(c: Checker, sc: Scorers, h: seq<Message>) returns (converged: bool)
    ensures converged <==> exists s :: 1 <= s <= c.maxStep && Passes(c, sc, h, s)
    ensures converged == Converged(c, sc, h)
  {
    ConvergedIff(c, sc, h);
    var step := 1;
    while step <= c.maxStep
      invariant step >= 1
      invariant FirstStride(c, sc, h, step) == FirstStride(c, sc, h, 1)
      invariant forall t :: 1 <= t < step ==> !Passes(c, sc, h, t)
      decreases c.maxStep - step
    {
      var slice := Window(h, step, c.minLen);
      if |slice| >= c.minLen {
        if Check(c.metric, sc, slice) {
          return true;
        }
      }
      step := step + 1;
    }
    return false;
  }
}
