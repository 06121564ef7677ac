/** The linear-interpolation resampler: loops over the sample arrays, with state carried between blocks. */
module RateTransposer {
  import opened Resampling
  import opened SampleFifo
  import opened Sequences
  import opened Wrappers

  /** Output frames a block of `numFrames` frames can cause at most. */
  function Room(numFrames: nat, rate: real): nat
    requires rate > 0.0
  {
    (numFrames as real / rate).Floor + 1
  }

  lemma RoomSuffices(numFrames: nat, rate: real, i: nat)
    requires rate > 0.0 && i as real * rate <= numFrames as real
    ensures i < Room(numFrames, rate)
  {
    Quotient(numFrames as real / rate, rate, numFrames as real, i);
  }

  /** What `process` asks its output for is enough, whatever fraction the quotient has. */
  lemma RoomReserved(frameCount: nat, numFrames: nat, rate: real)
    requires rate > 0.0
    ensures numFrames as real / rate >= 0.0
    ensures ((frameCount as real + (numFrames as real / rate + 1.0)) * 2.0).Floor >= 2 * (frameCount + Room(numFrames, rate))
  {
    Quotient(numFrames as real / rate, rate, numFrames as real, 0);
    var q := numFrames as real / rate;
    assert (frameCount as real + (q + 1.0)) * 2.0 >= (2 * (frameCount + q.Floor + 1)) as real;
  }

  /** No more positions than that fit between two frames `numFrames` apart. */
  lemma RoomBetween(base: real, rate: real, from: nat, i: nat, last: nat, numFrames: nat)
    requires rate > 0.0 && last as real <= At(base, rate, from) && At(base, rate, from + i) <= (last + numFrames) as real
    ensures i < Room(numFrames, rate)
  {
    assert At(base, rate, from + i) == At(base, rate, from) + i as real * rate;
    RoomSuffices(numFrames, rate, i);
  }

  lemma BlockBehind(signal: seq<real>, block: seq<real>, last: nat)
    requires |signal| == 2 * (last + 1) && Interleaved(block) && |block| >= 2
    ensures (signal + block)[2 * last..2 * last + 4] == signal[|signal| - 2..] + [block[0], block[1]]
    ensures (signal + block)[2 * (last + 1)..] == block
    ensures (signal + block)[|signal + block| - 2..] == [block[|block| - 2], block[|block| - 1]]
  {
  }

  lemma FrameInBlock(whole: seq<real>, block: seq<real>, last: nat, used: nat)
    requires 2 * (last + 1) <= |whole| && whole[2 * (last + 1)..] == block && 2 * used + 4 <= |block|
    ensures whole[2 * (last + 1 + used)..2 * (last + 1 + used) + 4]
         == [block[2 * used], block[2 * used + 1], block[2 * used + 2], block[2 * used + 3]]
  {
  }

  // ---- One call of transpose, on values ----

  /** The stream to continue: its signal, the frame to continue at, and what stands readable before it. */
  datatype Goal = Goal(base: real, rate: real, whole: seq<real>, from: nat, readable: seq<real>)

  /** `i` frames of the stream stand in `store` behind the readable ones, and the next one lies at `slope`
      behind frame `at` of the signal; the last one lies at or, if `strict`, before `limit`. */
  ghost predicate Reached(g: Goal, store: seq<real>, slope: real, i: nat, at: nat, limit: real, strict: bool) {
    && Within(g.whole, g.base, g.rate, g.from + i)
    && |g.readable| + 2 * i <= |store|
    && store[..|g.readable| + 2 * i] == g.readable + Stream(g.whole, g.base, g.rate, g.from + i)[2 * g.from..]
    && slope == At(g.base, g.rate, g.from + i) - at as real && slope >= 0.0
    && (g.from + i > 0 ==>
          At(g.base, g.rate, g.from + i) - g.rate <= limit && (strict ==> At(g.base, g.rate, g.from + i) - g.rate < limit))
  }

  lemma AppendFrame(readable: seq<real>, s: seq<real>, from: nat, left: real, right: real)
    requires 2 * from <= |s|
    ensures readable + s[2 * from..] + [left, right] == readable + (s + [left, right])[2 * from..]
  {
  }

  /** Storing the frame between frames `j` and `j + 1`. */
  lemma EmitStep(g: Goal, store: seq<real>, store': seq<real>, slope: real, i: nat, j: nat, limit: real, strict: bool,
                 limit': real, strict': bool, around: seq<real>)
    requires g.rate > 0.0 && Reached(g, store, slope, i, j, limit, strict) && slope <= 1.0
    requires 2 * j + 4 <= |g.whole| && g.whole[2 * j..2 * j + 4] == around && |around| == 4
    requires j as real + slope <= limit' && (strict' ==> j as real + slope < limit')
    requires |g.readable| + 2 * i + 2 <= |store'|
    requires store'[..|g.readable| + 2 * i + 2]
          == store[..|g.readable| + 2 * i] + [Mix(slope, around[0], around[2]), Mix(slope, around[1], around[3])]
    ensures Reached(g, store', slope + g.rate, i + 1, j, limit', strict')
  {
    hide Stream, Within, At, Mix;
    var left, right := Mix(slope, around[0], around[2]), Mix(slope, around[1], around[3]);
    StreamBetween(g.whole, g.base, g.rate, g.from + i, j, slope);
    AtStep(g.base, g.rate, g.from + i);
    var before, after := Stream(g.whole, g.base, g.rate, g.from + i), Stream(g.whole, g.base, g.rate, g.from + i + 1);
    AppendFrame(g.readable, before, g.from, left, right);
    assert store'[..|g.readable| + 2 * i + 2] == g.readable + before[2 * g.from..] + [left, right];
    assert g.from + (i + 1) == g.from + i + 1 && |g.readable| + 2 * (i + 1) == |g.readable| + 2 * i + 2;
    assert store'[..|g.readable| + 2 * (i + 1)] == g.readable + Stream(g.whole, g.base, g.rate, g.from + (i + 1))[2 * g.from..];
    assert slope + g.rate == At(g.base, g.rate, g.from + (i + 1)) - j as real;
  }

  lemma ReachedWeaken(g: Goal, store: seq<real>, slope: real, i: nat, at: nat, limit: real, limit': real)
    requires Reached(g, store, slope, i, at, limit, false) || Reached(g, store, slope, i, at, limit, true)
    requires limit < limit'
    ensures Reached(g, store, slope, i, at, limit', false) && Reached(g, store, slope, i, at, limit', true)
  {
    hide Stream, Within, At;
  }

  /** Moving on by one frame of the signal. */
  lemma AdvanceStep(g: Goal, store: seq<real>, slope: real, i: nat, at: nat, limit: real, strict: bool, limit': real)
    requires Reached(g, store, slope, i, at, limit, strict) && slope >= 1.0 && limit <= limit'
    ensures Reached(g, store, slope - 1.0, i, at + 1, limit', false)
    ensures limit == limit' ==> Reached(g, store, slope - 1.0, i, at + 1, limit', strict)
  {
    hide Stream, Within, At;
  }

  lemma EmitFits(g: Goal, store: seq<real>, slope: real, i: nat, at: nat, limit: real, strict: bool, last: nat, numFrames: nat)
    requires Reached(g, store, slope, i, at, limit, strict) && g.rate > 0.0
    requires last as real <= At(g.base, g.rate, g.from) && at as real + slope <= (last + numFrames) as real
    ensures i < Room(numFrames, g.rate)
  {
    hide Stream, Within, At, Room;
    RoomBetween(g.base, g.rate, g.from, i, last, numFrames);
  }

  /** When the last frame is passed, the frames that stand there are exactly those it completes. */
  lemma CountThere(g: Goal, store: seq<real>, slope: real, i: nat, at: nat, strict: bool)
    requires Reached(g, store, slope, i, at, at as real, strict) && (strict || slope > 0.0)
    ensures IsCount(g.from + i, at, g.base, g.rate, !strict)
    ensures slope == At(g.base, g.rate, g.from + i) - at as real && slope >= 0.0
  {
    hide Stream, Within, At;
    if g.from + i > 0 {
      AtStep(g.base, g.rate, g.from + i - 1);
    }
  }

  lemma WhatStands(g: Goal, store: seq<real>, slope: real, i: nat, at: nat, limit: real, strict: bool)
    requires Reached(g, store, slope, i, at, limit, strict)
    ensures Within(g.whole, g.base, g.rate, g.from + i) && |g.readable| + 2 * i <= |store|
    ensures store[..|g.readable| + 2 * i] == g.readable + Stream(g.whole, g.base, g.rate, g.from + i)[2 * g.from..]
    ensures slope == At(g.base, g.rate, g.from + i) - at as real && slope >= 0.0
  {
  }

  lemma StartReached(base: real, rate: real, signal: seq<real>, block: seq<real>, from: nat, readable: seq<real>, store: seq<real>,
                     slope: real)
    requires rate > 0.0 && base >= 0.0 && slope >= 0.0 && Interleaved(signal) && |signal| >= 2 && Interleaved(block)
    requires slope == At(base, rate, from) - (|signal| / 2 - 1) as real
    requires if |signal| == 2 then from == 0
             else IsCount(from, |signal| / 2 - 1, base, rate, true) || IsCount(from, |signal| / 2 - 1, base, rate, false)
    requires readable <= store
    ensures Reached(Goal(base, rate, signal + block, from, readable), store, slope, 0,
                    |signal| / 2 - 1, (|signal| / 2 - 1) as real, false)
  {
    hide Stream, At;
    StartsWritten(signal, block, base, rate, from);
    if from > 0 {
      AtStep(base, rate, from - 1);
    }
  }

  class Transposer {
    var input: FifoSampleBuffer
    var output: FifoSampleBuffer
    var rate: real
    var slopeCount: real
    var prevSampleL: real
    var prevSampleR: real

    // Since the rate was last set: the offset at which sampling began, all of the input with the frame before it
    // in front, the frames produced, and whether the last block was a single frame.
    ghost var base: real
    ghost var signal: seq<real>
    ghost var emitted: nat
    ghost var single: bool

    ghost predicate Separate()
      reads this, input, output
    {
      input.Valid() && output.Valid() && input != output
    }

    /** The carried state is the position of the next output frame relative to the last input frame. */
    ghost predicate Synchronous()
      reads this
    {
      && rate > 0.0 && base >= 0.0 && slopeCount >= 0.0
      && Interleaved(signal) && |signal| >= 2
      && [prevSampleL, prevSampleR] == signal[|signal| - 2..]
      && slopeCount == At(base, rate, emitted) - (|signal| / 2 - 1) as real
      && (if |signal| == 2 then emitted == 0 else IsCount(emitted, |signal| / 2 - 1, base, rate, !single))
    }

    constructor (input: FifoSampleBuffer, output: FifoSampleBuffer)
      requires input.Valid() && output.Valid() && input != output
      ensures Separate() && Synchronous() && this.input == input && this.output == output
      ensures rate == 1.0 && base == slopeCount == 0.0 && prevSampleL == prevSampleR == 0.0
      ensures signal == [0.0, 0.0] && emitted == 0
    {
      this.input, this.output := input, output;
      rate, slopeCount, prevSampleL, prevSampleR := 1.0, 0.0, 0.0, 0.0;
      base, signal, emitted, single := 0.0, [0.0, 0.0], 0, false;
    }

    /** A new rate starts a new stream behind the last frame, at the offset already reached.  The setter takes any
        rate; only a positive one can be processed. */
    method SetRate(rate: real)
      requires slopeCount >= 0.0
      modifies this`rate, this`base, this`signal, this`emitted
      ensures this.rate == rate && base == slopeCount && emitted == 0 && signal == [prevSampleL, prevSampleR]
      ensures rate > 0.0 ==> Synchronous()
    {
      this.rate := rate;
      base, signal, emitted := slopeCount, [prevSampleL, prevSampleR], 0;
    }

    method Reset()
      modifies this`slopeCount, this`prevSampleL, this`prevSampleR, this`base, this`signal, this`emitted
      ensures base == slopeCount == 0.0 && signal == [prevSampleL, prevSampleR] == [0.0, 0.0] && emitted == 0
      ensures rate > 0.0 ==> Synchronous()
    {
      slopeCount, prevSampleL, prevSampleR := 0.0, 0.0, 0.0;
      base, signal, emitted := 0.0, [0.0, 0.0], 0;
    }

    /** The frames between the last frame of the previous block and the first of this one. */
    method Across(ghost g: Goal, ghost last: nat, numFrames: nat, left: real, right: real) returns (i: nat)
      requires g.base == base && g.rate == rate > 0.0 && output.Valid() && output.EndIndex() == |g.readable|
      requires numFrames > 0 && 2 * (last + 2) <= |g.whole| && last as real <= At(base, rate, g.from)
      requires g.whole[2 * last..2 * last + 4] == [prevSampleL, prevSampleR, left, right]
      requires output.EndIndex() + 2 * Room(numFrames, rate) <= |output.vector|
      requires Reached(g, output.vector, slopeCount, 0, last, last as real, false)
      modifies this`slopeCount, output`vector
      ensures i <= Room(numFrames, rate) && output.Valid() && |output.vector| == |old(output.vector)|
      ensures Reached(g, output.vector, slopeCount, i, last + 1, (last + 1) as real, true)
    {
      hide Reached, At, Mix, Room;
      i := 0;
      ReachedWeaken(g, output.vector, slopeCount, 0, last, last as real, (last + 1) as real);
      while slopeCount < 1.0
        invariant i <= Room(numFrames, rate) && output.Valid() && |output.vector| == |old(output.vector)|
        invariant Reached(g, output.vector, slopeCount, i, last, (last + 1) as real, true)
        decreases Room(numFrames, rate) - i
      {
        EmitFits(g, output.vector, slopeCount, i, last, (last + 1) as real, true, last, numFrames);
        ghost var store, slope := output.vector, slopeCount;
        output.StoreFrame(output.EndIndex() + 2 * i, Mix(slopeCount, prevSampleL, left), Mix(slopeCount, prevSampleR, right));
        slopeCount := slopeCount + rate;
        EmitStep(g, store, output.vector, slope, i, last, (last + 1) as real, true, (last + 1) as real, true,
                 [prevSampleL, prevSampleR, left, right]);
        i := i + 1;
      }
      AdvanceStep(g, output.vector, slopeCount, i, last, (last + 1) as real, true, (last + 1) as real);
      slopeCount := slopeCount - 1.0;
    }

    /** The frames between the frames of this block, until the last of them is passed. */
    method Inside(ghost g: Goal, ghost last: nat, numFrames: nat, start: nat) returns (i: nat)
      requires g.base == base && g.rate == rate > 0.0 && Separate() && output.EndIndex() == |g.readable|
      requires numFrames == input.frameCount >= 2 && last as real <= At(base, rate, g.from)
      requires |g.whole| == 2 * (last + 1 + numFrames) && g.whole[2 * (last + 1)..] == input.Contents()
      requires output.EndIndex() + 2 * Room(numFrames, rate) <= |output.vector| && start <= Room(numFrames, rate)
      requires Reached(g, output.vector, slopeCount, start, last + 1, (last + 1) as real, true)
      modifies this`slopeCount, output`vector
      ensures i <= Room(numFrames, rate) && output.Valid() && |output.vector| == |old(output.vector)| && slopeCount > 0.0
      ensures Reached(g, output.vector, slopeCount, i, last + numFrames, (last + numFrames) as real, false)
    {
      hide Reached, At, Mix, Room;
      var src, srcOffset := input.vector, input.StartIndex();
      ghost var block := input.Contents();
      var used := 0;
      i := start;
      ReachedWeaken(g, output.vector, slopeCount, i, last + 1, (last + 1) as real, (last + 2) as real);
      while true
        invariant 0 <= used < numFrames - 1 && i <= Room(numFrames, rate)
        invariant output.Valid() && |output.vector| == |old(output.vector)|
        invariant Reached(g, output.vector, slopeCount, i, last + 1 + used, (last + 2 + used) as real, false)
        decreases Room(numFrames, rate) - i
      {
        while slopeCount > 1.0
          invariant 0 <= used < numFrames - 1
          invariant Reached(g, output.vector, slopeCount, i, last + 1 + used, (last + 2 + used) as real, false)
          modifies this`slopeCount
        {
          AdvanceStep(g, output.vector, slopeCount, i, last + 1 + used, (last + 2 + used) as real, false, (last + 2 + used) as real);
          AdvanceStep(g, output.vector, slopeCount, i, last + 1 + used, (last + 2 + used) as real, false, (last + 3 + used) as real);
          slopeCount := slopeCount - 1.0;
          used := used + 1;
          if used >= numFrames - 1 {
            return;
          }
        }
        EmitFits(g, output.vector, slopeCount, i, last + 1 + used, (last + 2 + used) as real, false, last, numFrames);
        FrameInBlock(g.whole, block, last, used);
        var srcIndex := srcOffset + 2 * used;
        ghost var store, slope := output.vector, slopeCount;
        output.StoreFrame(output.EndIndex() + 2 * i, Mix(slopeCount, src[srcIndex], src[srcIndex + 2]),
                          Mix(slopeCount, src[srcIndex + 1], src[srcIndex + 3]));
        slopeCount := slopeCount + rate;
        EmitStep(g, store, output.vector, slope, i, last + 1 + used, (last + 2 + used) as real, false,
                 (last + 2 + used) as real, false, [src[srcIndex], src[srcIndex + 1], src[srcIndex + 2], src[srcIndex + 3]]);
        i := i + 1;
      }
    }

    /** Both phases for a block that is not empty. */
    method TransposeBlock(ghost g: Goal, ghost last: nat, numFrames: nat) returns (written: nat)
      requires g.base == base && g.rate == rate > 0.0 && Separate() && output.EndIndex() == |g.readable|
      requires 0 < numFrames == input.frameCount && last as real <= At(base, rate, g.from)
      requires |signal| == 2 * (last + 1) && g.whole == signal + input.Contents()
      requires [prevSampleL, prevSampleR] == signal[|signal| - 2..]
      requires output.EndIndex() + 2 * Room(numFrames, rate) <= |output.vector|
      requires Reached(g, output.vector, slopeCount, 0, last, last as real, false)
      modifies this`slopeCount, output`vector
      ensures written <= Room(numFrames, rate) && output.Valid()
      ensures Reached(g, output.vector, slopeCount, written, last + numFrames, (last + numFrames) as real, numFrames == 1)
      ensures numFrames != 1 ==> slopeCount > 0.0
    {
      hide Reached, At, Room;
      var src, srcOffset := input.vector, input.StartIndex();
      BlockBehind(signal, input.Contents(), last);
      written := Across(g, last, numFrames, src[srcOffset], src[srcOffset + 1]);
      if numFrames != 1 {
        written := Inside(g, last, numFrames, written);
      }
    }

    /** Keeps the last frame of the block for the next one. */
    method Carry(ghost whole: seq<real>, ghost count: nat, ghost last: nat, ghost one: bool, left: real, right: real)
      requires rate > 0.0 && base >= 0.0 && slopeCount >= 0.0 && last > 0
      requires |whole| == 2 * (last + 1) && whole[2 * last..] == [left, right]
      requires slopeCount == At(base, rate, count) - last as real && IsCount(count, last, base, rate, !one)
      modifies this`prevSampleL, this`prevSampleR, this`signal, this`emitted, this`single
      ensures Synchronous() && signal == whole && emitted == count && single == one
    {
      hide At, IsCount;
      prevSampleL, prevSampleR := left, right;
      signal, emitted, single := whole, count, one;
    }

    /** A block that is not empty: both phases, and the last frame kept for the next block. */
    method TransposeSome(ghost g: Goal, ghost last: nat, numFrames: nat) returns (written: nat)
      requires Separate() && 0 < numFrames == input.frameCount && base >= 0.0 && output.EndIndex() == |g.readable|
      requires g.base == base && g.rate == rate > 0.0 && g.from == emitted
      requires |signal| == 2 * (last + 1) && g.whole == signal + input.Contents()
      requires [prevSampleL, prevSampleR] == signal[|signal| - 2..]
      requires output.EndIndex() + 2 * Room(numFrames, rate) <= |output.vector|
      requires last as real <= At(base, rate, g.from) && Reached(g, output.vector, slopeCount, 0, last, last as real, false)
      modifies this`slopeCount, this`prevSampleL, this`prevSampleR, this`signal, this`emitted, this`single, output`vector
      ensures Separate() && Synchronous() && written <= Room(numFrames, rate)
      ensures signal == g.whole && emitted == old(emitted) + written && single == (numFrames == 1)
      ensures Reached(g, output.vector, slopeCount, written, last + numFrames, (last + numFrames) as real, numFrames == 1)
    {
      hide Stream, At, Room, IsCount, Reached, Within, Transposer.Synchronous;
      ghost var block := input.Contents();
      written := TransposeBlock(g, last, numFrames);
      CountThere(g, output.vector, slopeCount, written, last + numFrames, numFrames == 1);
      BlockBehind(signal, block, last);
      var end := input.EndIndex();
      Carry(g.whole, emitted + written, last + numFrames, numFrames == 1, input.vector[end - 2], input.vector[end - 1]);
    }

    /** Writes exactly the frames of the stream that the unread input completes, behind the readable output. */
    method Transpose(numFrames: nat) returns (written: nat)
      requires Separate() && Synchronous() && numFrames == input.frameCount && output.position == 0
      requires output.EndIndex() + 2 * Room(numFrames, rate) <= |output.vector|
      modifies this`slopeCount, this`prevSampleL, this`prevSampleR, this`signal, this`emitted, this`single, output`vector
      ensures Separate() && Synchronous() && written <= Room(numFrames, rate)
      ensures signal == old(signal) + input.Contents() && emitted == old(emitted) + written
      ensures single == (if numFrames == 0 then old(single) else numFrames == 1)
      ensures Within(signal, base, rate, emitted)
      ensures output.EndIndex() + 2 * written <= |output.vector|
      ensures output.vector[..output.EndIndex() + 2 * written]
           == old(output.Contents()) + Stream(signal, base, rate, emitted)[2 * old(emitted)..]
    {
      hide Stream, At, Room, IsCount, Reached, Within;
      ghost var block, last := input.Contents(), |signal| / 2 - 1;
      ghost var g := Goal(base, rate, signal + block, emitted, output.Contents());
      assert output.vector[..|g.readable|] == g.readable;
      StartReached(base, rate, signal, block, emitted, g.readable, output.vector, slopeCount);
      if numFrames == 0 {
        assert g.whole == signal;
        WhatStands(g, output.vector, slopeCount, 0, last, last as real, false);
        return 0;
      }
      written := TransposeSome(g, last, numFrames);
      WhatStands(g, output.vector, slopeCount, written, last + numFrames, (last + numFrames) as real, numFrames == 1);
    }

    /** Consumes the input and appends exactly the next part of the one stream.  The room that is reserved is
        enough, so no unwritten frame becomes readable. */
    method Process()
      requires Separate() && Synchronous()
      modifies this`slopeCount, this`prevSampleL, this`prevSampleR, this`signal, this`emitted, this`single, input, output
      ensures Separate() && Synchronous() && Within(signal, base, rate, emitted)
      ensures input.Contents() == [] && signal == old(signal) + old(input.Contents())
      ensures single == (if old(input.frameCount) == 0 then old(single) else old(input.frameCount) == 1)
      ensures emitted >= old(emitted)
      ensures output.Contents() == old(output.Contents()) + Stream(signal, base, rate, emitted)[2 * old(emitted)..]
    {
      hide Stream, At, Mix, IsCount, Room, Within;
      var numFrames := input.frameCount;
      RoomReserved(output.frameCount, numFrames, rate);
      output.EnsureAdditionalCapacity(numFrames as real / rate + 1.0);
      var numFramesOutput := Transpose(numFrames);
      input.Receive(None);
      ghost var end := output.EndIndex();
      output.Put(numFramesOutput);
      assert output.Contents() == output.vector[..end + 2 * numFramesOutput];
    }
  }

  lemma ConcatStep(blocks: seq<seq<real>>, block: seq<real>)
    requires Cutting(blocks) && Interleaved(block)
    ensures Cutting(blocks + [block])
    ensures Concat(blocks + [block]) == Concat(blocks) + block
    ensures LastSingle(blocks + [block]) == (if |block| == 0 then LastSingle(blocks) else |block| == 2)
  {
    assert (blocks + [block])[..|blocks|] == blocks;
    ConcatOne(blocks, block);
  }

  /** The carried count is the one that the input determines. */
  lemma CountReached(frames: nat, n: nat, rate: real, single: bool)
    requires rate > 0.0
    requires if frames == 0 then n == 0 else IsCount(n, frames, 0.0, rate, !single)
    ensures n == Count(frames, 0.0, rate, single)
  {
    if frames > 0 {
      CountIsCount(frames, 0.0, rate, single);
      CountUnique(n, Count(frames, 0.0, rate, single), frames, 0.0, rate, !single);
    }
  }

  /** What a resampler that has been fed `blocks` since it was made holds and has put out. */
  ghost predicate FedState(signal: seq<real>, single: bool, emitted: nat, rate: real, out: seq<real>, blocks: seq<seq<real>>) {
    && rate > 0.0 && Cutting(blocks) && signal == [0.0, 0.0] + Concat(blocks)
    && (|signal| > 2 ==> single == LastSingle(blocks))
    && Within(signal, 0.0, rate, emitted) && out == Stream(signal, 0.0, rate, emitted)
  }

  lemma FedStart(rate: real, single: bool)
    requires rate > 0.0
    ensures FedState([0.0, 0.0], single, 0, rate, [], [])
  {
  }

  lemma FedStep(signal: seq<real>, single: bool, m: nat, rate: real, out: seq<real>, blocks: seq<seq<real>>,
                block: seq<real>, single': bool, n: nat)
    requires FedState(signal, single, m, rate, out, blocks) && Interleaved(block) && m <= n
    requires single' == (if |block| == 0 then single else |block| == 2)
    requires Within(signal + block, 0.0, rate, n)
    ensures FedState(signal + block, single', n, rate, out + Stream(signal + block, 0.0, rate, n)[2 * m..], blocks + [block])
  {
    hide Stream, Within, At;
    ConcatStep(blocks, block);
    StreamPrefix(signal, block, 0.0, rate, m, n);
    assert signal + block == [0.0, 0.0] + Concat(blocks + [block]);
  }

  /** Fed means: the output is the one the input determines. */
  lemma FedOutput(signal: seq<real>, single: bool, emitted: nat, rate: real, out: seq<real>, blocks: seq<seq<real>>)
    requires FedState(signal, single, emitted, rate, out, blocks)
    requires if |signal| == 2 then emitted == 0 else IsCount(emitted, |signal| / 2 - 1, 0.0, rate, !single)
    ensures out == Output([0.0, 0.0], blocks, 0.0, rate)
  {
    hide Stream, At, IsCount, Count;
    OutputWithin([0.0, 0.0], blocks, 0.0, rate);
    CountReached(|Concat(blocks)| / 2, emitted, rate, LastSingle(blocks));
  }

  ghost predicate Fed(t: Transposer, blocks: seq<seq<real>>)
    reads t, t.input, t.output
  {
    && t.Separate() && t.Synchronous() && t.input.Contents() == [] && t.base == 0.0
    && FedState(t.signal, t.single, t.emitted, t.rate, t.output.Contents(), blocks)
  }

  method Feed(t: Transposer, ghost blocks: seq<seq<real>>, block: seq<real>)
    requires Fed(t, blocks) && Interleaved(block)
    modifies t, t.input, t.output
    ensures t.input == old(t.input) && t.output == old(t.output) && t.rate == old(t.rate)
    ensures Fed(t, blocks + [block])
  {
    hide Stream, At, Within, IsCount, FedState;
    ghost var signal, single, m, out := t.signal, t.single, t.emitted, t.output.Contents();
    t.input.PutSamples(block, 0, 0);
    assert t.input.Contents() == block;
    t.Process();
    FedStep(signal, single, m, t.rate, out, blocks, block, t.single, t.emitted);
  }

  /** A fresh resampler at one rate. */
  method Prepared(rate: real) returns (t: Transposer)
    requires rate > 0.0
    ensures fresh(t) && fresh(t.input) && fresh(t.output) && t.rate == rate && Fed(t, [])
  {
    hide Stream, At, Within, IsCount, FedState;
    var input := new FifoSampleBuffer(DEFAULT_MAX_FRAMES);
    var output := new FifoSampleBuffer(DEFAULT_MAX_FRAMES);
    t := new Transposer(input, output);
    t.SetRate(rate);
    FedStart(rate, t.single);
  }

  lemma FedIsOutput(t: Transposer, blocks: seq<seq<real>>)
    requires Fed(t, blocks) && Cutting(blocks)
    ensures t.input.Valid() && t.output.Valid() && t.rate > 0.0
    ensures t.output.Contents() == Output([0.0, 0.0], blocks, 0.0, t.rate)
  {
    hide Stream, At, Within, IsCount, FedState, Output, Cutting;
    FedOutput(t.signal, t.single, t.emitted, t.rate, t.output.Contents(), blocks);
  }

  /** A fresh resampler at one rate, fed block by block: its output is the one that the input determines. */
  method Resample(blocks: seq<seq<real>>, rate: real) returns (out: seq<real>)
    requires Cutting(blocks) && rate > 0.0
    ensures out == Output([0.0, 0.0], blocks, 0.0, rate)
  {
    hide Fed, Output;
    var t := Prepared(rate);
    assert blocks[..0] == [];
    for n := 0 to |blocks|
      invariant fresh(t) && fresh(t.input) && fresh(t.output)
      invariant t.rate == rate && Fed(t, blocks[..n])
    {
      Feed(t, blocks[..n], blocks[n]);
      assert blocks[..n + 1] == blocks[..n] + [blocks[n]];
    }
    assert blocks[..|blocks|] == blocks;
    FedIsOutput(t, blocks);
    out := t.output.Contents();
  }
}
