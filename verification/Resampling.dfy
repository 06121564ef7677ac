/** What the resampler is meant to produce, independently of how its input arrives: linear interpolation
    of one signal at equally spaced positions. */
module Resampling {
  import opened Sequences

  predicate Interleaved(s: seq<real>) {
    |s| % 2 == 0
  }

  /** Position of output frame `i`, in frames of the signal. */
  function At(base: real, rate: real, i: nat): real {
    base + i as real * rate
  }

  function Mix(f: real, before: real, after: real): real {
    (1.0 - f) * before + f * after
  }

  /** The signal at a real position, one channel; frame positions are frame values. */
  function Lerp(signal: seq<real>, channel: nat, p: real): real
    requires Interleaved(signal) && channel < 2
    requires 0.0 <= p <= (|signal| / 2 - 1) as real
  {
    var j := p.Floor;
    var f := p - j as real;
    if f == 0.0 then signal[2 * j + channel]
    else Mix(f, signal[2 * j + channel], signal[2 * j + 2 + channel])
  }

  /** The value a step of the loop computes from the two frames around a position. */
  lemma LerpBetween(signal: seq<real>, channel: nat, j: nat, f: real)
    requires Interleaved(signal) && channel < 2 && 2 * j + 4 <= |signal| && 0.0 <= f <= 1.0
    ensures Lerp(signal, channel, j as real + f)
         == Mix(f, signal[2 * j + channel], signal[2 * j + 2 + channel])
  {
    if f < 1.0 {
      assert (j as real + f).Floor == j;
    } else {
      assert (j as real + f).Floor == j + 1;
    }
  }

  lemma LerpPrefix(signal: seq<real>, more: seq<real>, channel: nat, p: real)
    requires Interleaved(signal) && Interleaved(more) && channel < 2
    requires 0.0 <= p <= (|signal| / 2 - 1) as real
    ensures Lerp(signal + more, channel, p) == Lerp(signal, channel, p)
  {
  }

  predicate Within(signal: seq<real>, base: real, rate: real, n: nat) {
    && Interleaved(signal) && base >= 0.0 && rate > 0.0
    && (n > 0 ==> At(base, rate, n - 1) <= (|signal| / 2 - 1) as real)
  }

  lemma AtStep(base: real, rate: real, i: nat)
    ensures At(base, rate, i + 1) == At(base, rate, i) + rate
  {
  }

  lemma {:induction false} AtMonotone(base: real, rate: real, i: nat, j: nat)
    requires rate > 0.0 && i <= j
    ensures At(base, rate, i) <= At(base, rate, j)
    ensures i < j ==> At(base, rate, i) + rate <= At(base, rate, j)
    decreases j - i
  {
    if i < j {
      AtStep(base, rate, j - 1);
      AtMonotone(base, rate, i, j - 1);
    }
  }

  lemma WithinAll(signal: seq<real>, base: real, rate: real, n: nat, i: nat)
    requires Within(signal, base, rate, n) && i < n
    ensures 0.0 <= At(base, rate, i) <= (|signal| / 2 - 1) as real
  {
    AtMonotone(base, rate, 0, i);
    AtMonotone(base, rate, i, n - 1);
  }

  /** Sample `k` of the output, both channels interleaved. */
  function StreamSample(signal: seq<real>, base: real, rate: real, n: nat, k: nat): real
    requires Within(signal, base, rate, n) && k < 2 * n
  {
    WithinAll(signal, base, rate, n, k / 2);
    Lerp(signal, k % 2, At(base, rate, k / 2))
  }

  /** The first `n` frames of the one output stream of a signal. */
  function Stream(signal: seq<real>, base: real, rate: real, n: nat): (out: seq<real>)
    requires Within(signal, base, rate, n)
    ensures |out| == 2 * n
  {
    seq(2 * n, k requires 0 <= k < 2 * n => StreamSample(signal, base, rate, n, k))
  }

  lemma StreamPrefix(signal: seq<real>, more: seq<real>, base: real, rate: real, m: nat, n: nat)
    requires Within(signal, base, rate, m) && Interleaved(more) && m <= n && Within(signal + more, base, rate, n)
    ensures Stream(signal, base, rate, m) == Stream(signal + more, base, rate, n)[..2 * m]
  {
    forall k | 0 <= k < 2 * m
      ensures Stream(signal, base, rate, m)[k] == Stream(signal + more, base, rate, n)[k]
    {
      WithinAll(signal, base, rate, m, k / 2);
      LerpPrefix(signal, more, k % 2, At(base, rate, k / 2));
    }
  }

  lemma StreamStep(signal: seq<real>, base: real, rate: real, n: nat)
    requires Within(signal, base, rate, n + 1)
    ensures Within(signal, base, rate, n) && 0.0 <= At(base, rate, n) <= (|signal| / 2 - 1) as real
    ensures Stream(signal, base, rate, n + 1)
         == Stream(signal, base, rate, n) + [Lerp(signal, 0, At(base, rate, n)), Lerp(signal, 1, At(base, rate, n))]
  {
    WithinAll(signal, base, rate, n + 1, n);
    WithinLess(signal, base, rate, n);
    hide At, Within, Lerp;
    var longer, shorter := Stream(signal, base, rate, n + 1), Stream(signal, base, rate, n);
    assert forall k :: 0 <= k < 2 * n ==> longer[k] == shorter[k];
    assert longer[2 * n] == Lerp(signal, 0, At(base, rate, n)) && longer[2 * n + 1] == Lerp(signal, 1, At(base, rate, n));
    LastTwo(longer, shorter);
  }

  lemma WithinLess(signal: seq<real>, base: real, rate: real, n: nat)
    requires Within(signal, base, rate, n + 1)
    ensures Within(signal, base, rate, n)
  {
    AtStep(base, rate, n);
    if n > 0 {
      WithinAll(signal, base, rate, n + 1, n - 1);
    }
  }

  lemma LastTwo(longer: seq<real>, shorter: seq<real>)
    requires |longer| == |shorter| + 2 && forall k :: 0 <= k < |shorter| ==> longer[k] == shorter[k]
    ensures longer == shorter + [longer[|shorter|], longer[|shorter| + 1]]
  {
  }

  /** The next output frame, computed from the two frames around its position. */
  lemma StreamBetween(signal: seq<real>, base: real, rate: real, n: nat, j: nat, f: real)
    requires Within(signal, base, rate, n) && 2 * j + 4 <= |signal|
    requires 0.0 <= f <= 1.0 && f == At(base, rate, n) - j as real
    ensures Within(signal, base, rate, n + 1)
    ensures Stream(signal, base, rate, n + 1) == Stream(signal, base, rate, n)
      + [Mix(f, signal[2 * j], signal[2 * j + 2]), Mix(f, signal[2 * j + 1], signal[2 * j + 3])]
  {
    hide Mix, Lerp, Stream;
    assert At(base, rate, n) == j as real + f;
    StreamStep(signal, base, rate, n);
    LerpBetween(signal, 0, j, f);
    LerpBetween(signal, 1, j, f);
  }

  /** Exactly the first `n` positions lie before frame `last`; a position on the frame itself counts only
      when `inclusive`. */
  predicate IsCount(n: nat, last: nat, base: real, rate: real, inclusive: bool) {
    if inclusive
    then (n > 0 ==> At(base, rate, n - 1) <= last as real) && last as real < At(base, rate, n)
    else (n > 0 ==> At(base, rate, n - 1) < last as real) && last as real <= At(base, rate, n)
  }

  /** How many frames are out once `frames` frames are in, when the last block held one frame or more. */
  function Count(frames: nat, base: real, rate: real, single: bool): nat
    requires base >= 0.0 && rate > 0.0
  {
    var x := (frames as real - base) / rate;
    var n := if frames == 0 then 0 else if single then -((-x).Floor) else x.Floor + 1;
    if n < 0 then 0 else n
  }

  lemma Quotient(x: real, rate: real, d: real, n: int)
    requires rate > 0.0 && x == d / rate
    ensures n as real <= x <==> n as real * rate <= d
    ensures n as real < x <==> n as real * rate < d
  {
    assert x * rate == d;
  }

  lemma CountIsCount(frames: nat, base: real, rate: real, single: bool)
    requires base >= 0.0 && rate > 0.0 && frames > 0
    ensures IsCount(Count(frames, base, rate, single), frames, base, rate, !single)
  {
    var d := frames as real - base;
    var x := d / rate;
    var n: int := Count(frames, base, rate, single);
    Quotient(x, rate, d, n);
    Quotient(x, rate, d, n - 1);
  }

  lemma CountUnique(m: nat, n: nat, last: nat, base: real, rate: real, inclusive: bool)
    requires rate > 0.0 && IsCount(m, last, base, rate, inclusive) && IsCount(n, last, base, rate, inclusive)
    ensures m == n
  {
    if m < n {
      AtMonotone(base, rate, m, n - 1);
    } else if n < m {
      AtMonotone(base, rate, n, m - 1);
    }
  }

  /** More input leaves what is already out in place. */
  lemma StartsWritten(signal: seq<real>, more: seq<real>, base: real, rate: real, n: nat)
    requires Interleaved(more) && Within(signal, base, rate, n)
    ensures Within(signal + more, base, rate, n)
    ensures Stream(signal + more, base, rate, n) == Stream(signal, base, rate, n)
    ensures Stream(signal + more, base, rate, n)[2 * n..] == []
  {
    StreamPrefix(signal, more, base, rate, n, n);
  }

  // ---- Cuttings ----

  /** Whether the last block that carried anything carried a single frame. */
  predicate LastSingle(blocks: seq<seq<real>>) {
    blocks != [] &&
    var last := blocks[|blocks| - 1];
    if |last| == 0 then LastSingle(blocks[..|blocks| - 1]) else |last| == 2
  }

  predicate Cutting(blocks: seq<seq<real>>) {
    forall i :: 0 <= i < |blocks| ==> Interleaved(blocks[i])
  }

  lemma {:induction false} ConcatInterleaved(blocks: seq<seq<real>>)
    requires Cutting(blocks)
    ensures Interleaved(Concat(blocks))
  {
    if blocks == [] {
    } else {
      ConcatInterleaved(blocks[1..]);
    }
  }

  lemma OutputWithin(frame: seq<real>, blocks: seq<seq<real>>, base: real, rate: real)
    requires |frame| == 2 && Cutting(blocks) && base >= 0.0 && rate > 0.0
    ensures Interleaved(Concat(blocks))
    ensures Within(frame + Concat(blocks), base, rate, Count(|Concat(blocks)| / 2, base, rate, LastSingle(blocks)))
  {
    ConcatInterleaved(blocks);
    hide Concat, LastSingle, Cutting;
    var frames, single := |Concat(blocks)| / 2, LastSingle(blocks);
    if frames > 0 {
      CountIsCount(frames, base, rate, single);
      hide Count, At;
      CountedWithin(frame + Concat(blocks), base, rate, Count(frames, base, rate, single), !single);
    }
  }

  lemma CountedWithin(signal: seq<real>, base: real, rate: real, n: nat, inclusive: bool)
    requires Interleaved(signal) && |signal| >= 2 && base >= 0.0 && rate > 0.0
    requires IsCount(n, |signal| / 2 - 1, base, rate, inclusive)
    ensures Within(signal, base, rate, n)
  {
  }

  /** Everything the resampler has produced after `blocks`, starting behind `frame` at offset `base`. */
  function Output(frame: seq<real>, blocks: seq<seq<real>>, base: real, rate: real): seq<real>
    requires |frame| == 2 && Cutting(blocks) && base >= 0.0 && rate > 0.0
  {
    OutputWithin(frame, blocks, base, rate);
    Stream(frame + Concat(blocks), base, rate, Count(|Concat(blocks)| / 2, base, rate, LastSingle(blocks)))
  }

  /** Two cuttings of one input give prefixes of one stream.  They differ only when exactly one of them ends
      in a single frame and a position falls on the last frame, and then by that one trailing frame. */
  lemma CuttingDoesNotMatter(frame: seq<real>, xs: seq<seq<real>>, ys: seq<seq<real>>, base: real, rate: real)
    requires |frame| == 2 && Cutting(xs) && Cutting(ys) && base >= 0.0 && rate > 0.0
    requires Concat(xs) == Concat(ys)
    requires LastSingle(xs) || !LastSingle(ys)
    ensures var x, y, frames := Output(frame, xs, base, rate), Output(frame, ys, base, rate), |Concat(xs)| / 2;
      && x <= y
      && (x == y || |y| == |x| + 2)
      && (x != y <==> frames > 0 && LastSingle(xs) && !LastSingle(ys)
                      && exists i: nat :: At(base, rate, i) == frames as real)
  {
    var frames := |Concat(xs)| / 2;
    var m := Count(frames, base, rate, LastSingle(xs));
    var n := Count(frames, base, rate, LastSingle(ys));
    OutputWithin(frame, xs, base, rate);
    OutputWithin(frame, ys, base, rate);
    if frames > 0 {
      CountIsCount(frames, base, rate, LastSingle(xs));
      CountIsCount(frames, base, rate, LastSingle(ys));
      if LastSingle(xs) == LastSingle(ys) {
      } else {
        SingleLags(m, n, frames, base, rate);
      }
    }
    StreamPrefix(frame + Concat(xs), [], base, rate, m, n);
    assert frame + Concat(xs) + [] == frame + Concat(ys);
  }

  lemma SingleLags(m: nat, n: nat, last: nat, base: real, rate: real)
    requires rate > 0.0 && IsCount(m, last, base, rate, false) && IsCount(n, last, base, rate, true)
    ensures n == m || n == m + 1
    ensures n == m + 1 <==> exists i: nat :: At(base, rate, i) == last as real
  {
    AtStep(base, rate, m);
    if At(base, rate, m) == last as real {
      CountUnique(m + 1, n, last, base, rate, true);
    } else {
      CountUnique(m, n, last, base, rate, true);
      forall i: nat
        ensures At(base, rate, i) != last as real
      {
        if i < m {
          AtMonotone(base, rate, i, m - 1);
        } else {
          AtMonotone(base, rate, m, i);
        }
      }
    }
  }
}
