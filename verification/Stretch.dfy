/** The time stretcher: seeks a splice point, crossfades, copies and moves on by a fractional skip. */
module Stretch {
  import opened SampleFifo
  import opened Stretching
  import opened Wrappers

  /** Offsets tried around the best one so far, coarse to fine; a zero ends a row. */
  const SCAN_OFFSETS: seq<seq<int>> := [
    [124, 186, 248, 310, 372, 434, 496, 558, 620, 682, 744, 806, 868, 930, 992, 1054, 1116, 1178, 1240, 1302, 1364, 1426,
     1488, 0],
    [-100, -75, -50, -25, 25, 50, 75, 100, 0],
    [-20, -15, -10, -5, 5, 10, 15, 20, 0],
    [-4, -3, -2, -1, 1, 2, 3, 4, 0]]

  /** The correlation at an offset; `None` is a NaN, read outside the store, that compares with nothing. */
  type Correlation = int -> Option<real>

  predicate Beats(c: Option<real>, best: real) {
    c.Some? && c.value > best
  }

  /** The exhaustive search: the first of the best offsets, or zero when none exceeds the floor. */
  method SeekExhaustive(correlation: Correlation, seekLength: nat, floor: real) returns (bestOffset: nat)
    ensures bestOffset < seekLength || bestOffset == 0
    ensures (forall i :: 0 <= i < seekLength ==> !Beats(correlation(i), floor)) ==> bestOffset == 0
    ensures (exists i :: 0 <= i < seekLength && Beats(correlation(i), floor)) ==>
      && Beats(correlation(bestOffset), floor)
      && (forall i :: 0 <= i < seekLength ==> !Beats(correlation(i), correlation(bestOffset).value))
      && (forall i :: 0 <= i < bestOffset ==> correlation(i) != correlation(bestOffset))
  {
    bestOffset := 0;
    var bestCorrelation := floor;
    ghost var found := false;
    for i := 0 to seekLength
      invariant found ==> bestOffset < i && correlation(bestOffset) == Some(bestCorrelation) && bestCorrelation > floor
      invariant !found ==> bestOffset == 0 && bestCorrelation == floor
      invariant forall k :: 0 <= k < i ==> !Beats(correlation(k), bestCorrelation)
      invariant found ==> forall k :: 0 <= k < bestOffset ==> correlation(k) != correlation(bestOffset)
    {
      var c := correlation(i);
      if Beats(c, bestCorrelation) {
        bestCorrelation := c.value;
        bestOffset := i;
        found := true;
      }
    }
  }

  /** The coarse-to-fine search: below `seekLength`, but a negative offset is possible, down to -124. */
  method SeekQuick(correlation: Correlation, seekLength: nat, floor: real) returns (bestOffset: int)
    ensures bestOffset < seekLength || bestOffset == 0
    ensures -124 <= bestOffset
    ensures bestOffset != 0 ==> Beats(correlation(bestOffset), floor)
  {
    bestOffset := 0;
    var bestCorrelation := floor;
    var correlationOffset := 0;
    for scanCount := 0 to 4
      invariant bestOffset == correlationOffset && (bestOffset < seekLength || bestOffset == 0)
      invariant bestOffset >= [0, 0, -100, -120, -124][scanCount]
      invariant bestCorrelation >= floor && (bestOffset != 0 ==> Beats(correlation(bestOffset), floor))
    {
      var j := 0;
      while SCAN_OFFSETS[scanCount][j] != 0
        invariant 0 <= j < |SCAN_OFFSETS[scanCount]|
        invariant bestOffset < seekLength || bestOffset == 0
        invariant bestOffset >= [0, -100, -120, -124][scanCount]
        invariant bestCorrelation >= floor && (bestOffset != 0 ==> Beats(correlation(bestOffset), floor))
        decreases |SCAN_OFFSETS[scanCount]| - j
      {
        var tempOffset := correlationOffset + SCAN_OFFSETS[scanCount][j];
        if tempOffset >= seekLength {
          break;
        }
        var c := correlation(tempOffset);
        if Beats(c, bestCorrelation) {
          bestCorrelation := c.value;
          bestOffset := tempOffset;
        }
        j := j + 1;
      }
      correlationOffset := bestOffset;
    }
  }

  class Stretcher {
    var input: FifoSampleBuffer
    var output: FifoSampleBuffer
    var midBuffer: array<real>
    var midBufferDirty: bool
    var tempo: real
    var overlapLength: nat
    var seekWindowLength: nat
    var seekLength: nat
    var nominalSkip: real
    var skipFract: real
    var sampleReq: nat

    // Since the tempo was last set: passes made, frames taken from the input and frames put out by them.
    ghost var passes: nat
    ghost var taken: nat
    ghost var produced: nat

    ghost predicate Configured()
      reads this
    {
      && overlapLength >= 16 && seekWindowLength > overlapLength && tempo > 0.0
      && nominalSkip == NominalSkip(tempo, seekWindowLength - overlapLength) && nominalSkip > 0.0
      && sampleReq == SampleReq(nominalSkip, overlapLength, seekWindowLength, seekLength)
    }

    ghost predicate Separate()
      reads this, input, output
    {
      input.Valid() && output.Valid() && input != output && midBuffer.Length >= 2 * overlapLength
    }

    /** Nothing accumulates: the kept fraction is exactly what the whole skips have left over. */
    ghost predicate NoDrift()
      reads this
    {
      Steady(passes, taken, skipFract, nominalSkip, produced, Hop(overlapLength, seekWindowLength))
    }

    ghost function Held(): Tape
      requires Separate()
      reads this, input, output, midBuffer
    {
      Tape(midBuffer[..2 * overlapLength], input.Contents(), skipFract)
    }

    /** The same once the tail has been filled, from the input if it has not been before. */
    ghost function Primed(): Tape
      requires Separate()
      reads this, input, output, midBuffer
    {
      if midBufferDirty && input.frameCount >= overlapLength
      then Tape(input.Contents()[..2 * overlapLength], input.Contents()[2 * overlapLength..], skipFract)
      else Held()
    }

    /** The shipped parameters: 44100 Hz, 8 ms of overlap, tempo 1, automatic lengths. */
    constructor (input: FifoSampleBuffer, output: FifoSampleBuffer)
      requires input.Valid() && output.Valid() && input != output
      ensures Configured() && Separate() && NoDrift() && midBufferDirty && fresh(midBuffer)
      ensures this.input == input && this.output == output && overlapLength == 352 && tempo == 1.0
    {
      this.input, this.output := input, output;
      overlapLength := OverlapFrames(SAMPLE_RATE, OVERLAP_MS);
      midBuffer := new real[2 * OverlapFrames(SAMPLE_RATE, OVERLAP_MS)];
      midBufferDirty := true;
      new;
      ShippedConfiguration(1.0);
      SetTempo(1.0, SequenceMs(1.0), SeekWindowMs(1.0), SAMPLE_RATE);
    }

    /** A new tempo starts counting afresh.  The setter takes any numbers; a positive tempo and a sequence longer than
        the overlap can be processed. */
    method SetTempo(newTempo: real, sequenceMs: nat, seekWindowMs: nat, sampleRate: nat)
      modifies this`tempo, this`seekWindowLength, this`seekLength, this`nominalSkip, this`skipFract, this`sampleReq
      modifies this`passes, this`taken, this`produced
      ensures newTempo > 0.0 && overlapLength >= 16 && Frames(sampleRate, sequenceMs) > overlapLength ==> Configured()
      ensures NoDrift() && tempo == newTempo && passes == taken == produced == 0
      ensures nominalSkip == NominalSkip(newTempo, seekWindowLength - overlapLength)
      ensures sampleReq == SampleReq(nominalSkip, overlapLength, seekWindowLength, seekLength)
      ensures seekWindowLength == Frames(sampleRate, sequenceMs) && seekLength == Frames(sampleRate, seekWindowMs)
    {
      hide NominalSkip, Frames, Steady;
      tempo := newTempo;
      seekWindowLength := Frames(sampleRate, sequenceMs);
      seekLength := Frames(sampleRate, seekWindowMs);
      nominalSkip := NominalSkip(newTempo, seekWindowLength - overlapLength);
      skipFract := 0.0;
      var intskip := (nominalSkip + 0.5).Floor;
      sampleReq := Max(intskip + overlapLength, seekWindowLength) + seekLength;
      passes, taken, produced := 0, 0, 0;
      SteadyStart(nominalSkip, Hop(overlapLength, seekWindowLength));
    }

    /** The crossfade, written behind the readable output. */
    method Overlap(offset: int)
      requires Separate() && overlapLength > 0 && output.position == 0
      requires output.EndIndex() + 2 * overlapLength <= |output.vector|
      modifies output`vector
      ensures output.Valid() && |output.vector| == |old(output.vector)|
      ensures output.vector[..output.EndIndex() + 2 * overlapLength] == old(output.Contents())
        + Crossfade(midBuffer[..2 * overlapLength], Window(input.vector, input.StartIndex() + 2 * offset, 2 * overlapLength), overlapLength)
    {
      hide Fade, Crossfade, Window;
      var source, start, end := input.vector, input.StartIndex() + 2 * offset, output.EndIndex();
      ghost var readable, window := output.Contents(), Window(source, start, 2 * overlapLength);
      ghost var faded := Crossfade(midBuffer[..2 * overlapLength], window, overlapLength);
      assert output.vector[..end] == readable;
      for i := 0 to overlapLength
        invariant output.Valid() && |output.vector| == |old(output.vector)|
        invariant output.vector[..end + 2 * i] == readable + faded[..2 * i]
      {
        var ctx := 2 * i;
        var left := if 0 <= start + ctx < |source| then source[start + ctx] else 0.0;
        var right := if 0 <= start + ctx + 1 < |source| then source[start + ctx + 1] else 0.0;
        FadedFrame(midBuffer[..2 * overlapLength], source, start, i, overlapLength);
        output.StoreFrame(end + ctx, Fade(midBuffer[ctx], left, i, overlapLength), Fade(midBuffer[ctx + 1], right, i, overlapLength));
        assert readable + faded[..ctx] + [faded[ctx], faded[ctx + 1]] == readable + faded[..2 * (i + 1)];
      }
    }

    /** Makes room and puts out the crossfade from the kept tail into the input at `offset`. */
    method PutFade(offset: int)
      requires Separate() && overlapLength > 0
      modifies output
      ensures Separate() && output.frameCount == old(output.frameCount) + overlapLength
      ensures output.Contents() == old(output.Contents())
        + Crossfade(midBuffer[..2 * overlapLength], Window(input.vector, input.StartIndex() + 2 * offset, 2 * overlapLength), overlapLength)
    {
      hide Crossfade, Window;
      WholeFrames(output.frameCount, overlapLength);
      output.EnsureAdditionalCapacity(overlapLength as real);
      Overlap(offset);
      output.Put(overlapLength);
    }

    /** Puts out one pass, always of the same number of frames: the crossfade into the window at the offset and the
        middle of the sequence. */
    method PutPass(offset: int) returns (ghost window: seq<real>)
      requires Separate() && 0 < overlapLength <= seekWindowLength && 0 <= offset + overlapLength
      requires offset + seekWindowLength <= input.frameCount
      modifies output
      ensures Separate() && Shows(window, input.Contents(), offset, overlapLength)
      ensures output.frameCount == old(output.frameCount) + Hop(overlapLength, seekWindowLength)
      ensures output.Contents() == old(output.Contents())
        + Splice(midBuffer[..2 * overlapLength], window, input.Contents(), offset, overlapLength, seekWindowLength)
    {
      hide Crossfade, Window, Splice, Shows;
      ghost var before, mid := output.Contents(), midBuffer[..2 * overlapLength];
      window := Window(input.vector, input.StartIndex() + 2 * offset, 2 * overlapLength);
      WindowShows(input.vector, input.StartIndex(), input.EndIndex(), offset, overlapLength);
      PutFade(offset);
      ghost var faded := output.Contents();
      var temp := seekWindowLength - 2 * overlapLength;
      if temp > 0 {
        output.PutBuffer(input, offset + overlapLength, temp);
      }
      SpliceParts(before, mid, window, input.Contents(), offset, overlapLength, seekWindowLength, faded, output.Contents());
    }

    /** Keeps the tail of the sequence for the next crossfade. */
    method KeepTail(offset: int)
      requires Separate() && overlapLength <= seekWindowLength && overlapLength <= offset + seekWindowLength <= input.frameCount
      modifies midBuffer
      ensures midBuffer[..2 * overlapLength] == Tail(input.Contents(), offset, overlapLength, seekWindowLength)
    {
      var start := input.StartIndex() + 2 * (offset + seekWindowLength - overlapLength);
      forall k | 0 <= k < 2 * overlapLength {
        midBuffer[k] := input.vector[start + k];
      }
    }

    /** Takes the whole part of the skip from the input and keeps the fraction. */
    method MoveOn()
      requires Configured() && Separate() && NoDrift() && input.frameCount >= sampleReq
      modifies this`skipFract, this`passes, this`taken, this`produced, input`position, input`frameCount
      ensures Separate() && NoDrift() && passes == old(passes) + 1
      ensures produced == old(produced) + Hop(overlapLength, seekWindowLength)
      ensures old(taken) <= taken && 2 * (taken - old(taken)) <= |old(input.Contents())|
      ensures input.Contents() == old(input.Contents())[2 * (taken - old(taken))..]
      ensures taken - old(taken) == old((skipFract + nominalSkip).Floor)
      ensures skipFract == old(skipFract + nominalSkip) - (taken - old(taken)) as real
      ensures input.frameCount as real - skipFract == old(input.frameCount as real - skipFract) - nominalSkip
    {
      SteadyStep(passes, taken, skipFract, nominalSkip, produced, Hop(overlapLength, seekWindowLength));
      SkipFits(skipFract, nominalSkip, overlapLength, seekWindowLength, seekLength);
      Balance(input.frameCount, skipFract, nominalSkip);
      hide Steady, SampleReq, Hop, NominalSkip;
      skipFract := skipFract + nominalSkip;
      var overlapSkip := skipFract.Floor;
      skipFract := skipFract - overlapSkip as real;
      input.Receive(Some(overlapSkip));
      passes, taken, produced := passes + 1, taken + overlapSkip, produced + Hop(overlapLength, seekWindowLength);
    }

    /** The first frames only fill the tail. */
    method Prime()
      requires Separate() && overlapLength > 0
      modifies this`midBufferDirty, input`position, input`frameCount, midBuffer
      ensures Separate()
      ensures midBufferDirty == (old(midBufferDirty) && old(input.frameCount) < overlapLength)
      ensures Held() == old(Primed())
      ensures var primed := if old(midBufferDirty) && !midBufferDirty then overlapLength else 0;
        && 2 * primed <= |old(input.Contents())|
        && input.Contents() == old(input.Contents())[2 * primed..]
        && (primed > 0 ==> midBuffer[..2 * overlapLength] == old(input.Contents())[..2 * primed])
    {
      if midBufferDirty && input.frameCount >= overlapLength {
        var first := input.ReceiveSamples(overlapLength);
        forall k | 0 <= k < |first| {
          midBuffer[k] := first[k];
        }
        midBufferDirty := false;
      }
    }

    method Seek(quickSeek: bool, correlation: Correlation, floor: real) returns (offset: int)
      requires quickSeek ==> 124 <= overlapLength && overlapLength + 124 <= seekWindowLength
      requires overlapLength <= seekWindowLength
      ensures offset <= seekLength && 0 <= offset + overlapLength && overlapLength <= offset + seekWindowLength
      ensures Findable(offset, quickSeek, seekLength)
    {
      if quickSeek {
        offset := SeekQuick(correlation, seekLength, floor);
      } else {
        offset := SeekExhaustive(correlation, seekLength, floor);
      }
    }

    ghost function InForce(): Setting
      reads this
    {
      Setting(nominalSkip, overlapLength, seekWindowLength)
    }

    /** One pass of the loop, at any offset that a search can find. */
    method Pass(offset: int) returns (ghost cut: Cut)
      requires Configured() && Separate() && NoDrift() && input.frameCount >= sampleReq
      requires offset <= seekLength && 0 <= offset + overlapLength && overlapLength <= offset + seekWindowLength
      modifies this`skipFract, this`passes, this`taken, this`produced, input`position, input`frameCount, output, midBuffer
      ensures Configured() && Separate() && NoDrift() && passes == old(passes) + 1
      ensures produced == old(produced) + Hop(overlapLength, seekWindowLength)
      ensures output.frameCount == old(output.frameCount) + Hop(overlapLength, seekWindowLength)
      ensures old(taken) <= taken && input.frameCount == old(input.frameCount) - (taken - old(taken))
      ensures input.frameCount as real - skipFract == old(input.frameCount as real - skipFract) - nominalSkip
      ensures cut.offset == offset && True(old(Held()), cut, InForce())
      ensures output.Contents() == old(output.Contents()) + Emitted(old(Held()), cut, InForce())
      ensures Held() == Passed(old(Held()), cut, InForce())
    {
      hide Steady, SampleReq, Hop, Splice, Tail, Shows, Fits, Emitted, Passed, True;
      SequenceFits(nominalSkip, overlapLength, seekWindowLength, seekLength);
      ghost var held := Held();
      ghost var window := PutPass(offset);
      cut := Cut(offset, window);
      KeepTail(offset);
      MoveOn();
      PassParts(held, cut, InForce(), taken - old(taken));
    }

    /** The output and what is held are those that `held` and the cuts determine. */
    ghost predicate Follows(held: Tape, before: seq<real>, cuts: seq<Cut>)
      requires Separate()
      reads this, input, output, midBuffer
    {
      && AllTrue(held, cuts, InForce())
      && output.Contents() == before + EmittedAll(held, cuts, InForce())
      && Held() == PassedAll(held, cuts, InForce())
    }

    /** One turn of the loop: a pass at the offset that the search finds, which brings the loop's end nearer. */
    method Turn(quickSeek: bool, correlation: Correlation, floor: real, ghost held: Tape, ghost before: seq<real>, ghost cuts: seq<Cut>)
      returns (ghost all: seq<Cut>)
      requires Configured() && Separate() && NoDrift() && input.frameCount >= sampleReq
      requires Follows(held, before, cuts) && AllFindable(cuts, quickSeek, seekLength)
      requires quickSeek ==> 124 <= overlapLength && overlapLength + 124 <= seekWindowLength
      modifies this`skipFract, this`passes, this`taken, this`produced, input`position, input`frameCount, output, midBuffer
      ensures Configured() && Separate() && NoDrift() && nominalSkip > 0.0 && passes == old(passes) + 1
      ensures old(taken) <= taken && old(produced) <= produced
      ensures output.frameCount - produced == old(output.frameCount - produced)
      ensures input.frameCount + taken == old(input.frameCount + taken)
      ensures Left(input.frameCount as real - skipFract, nominalSkip) < old(Left(input.frameCount as real - skipFract, nominalSkip))
      ensures old(Left(input.frameCount as real - skipFract, nominalSkip)) >= 0
      ensures |all| == |cuts| + 1 && AllFindable(all, quickSeek, seekLength) && Follows(held, before, all)
    {
      hide Steady, Hop, Left, Fits, Emitted, Passed, EmittedAll, PassedAll, AllTrue, True;
      SteadyStep(passes, taken, skipFract, nominalSkip, produced, Hop(overlapLength, seekWindowLength));
      assert input.frameCount as real - skipFract >= 0.0;
      hide SampleReq;
      LeftFalls(input.frameCount as real - skipFract, nominalSkip);
      var offset := Seek(quickSeek, correlation, floor);
      ghost var cut := Pass(offset);
      OneMorePass(held, cuts, cut, InForce());
      all := cuts + [cut];
    }

    /** The loop: every complete sequence in the input is used up. */
    method Drain(quickSeek: bool, correlations: nat -> Correlation, floor: real) returns (ghost cuts: seq<Cut>)
      requires Configured() && Separate() && NoDrift() && nominalSkip > 0.0
      requires quickSeek ==> 124 <= overlapLength && overlapLength + 124 <= seekWindowLength
      modifies this`skipFract, this`passes, this`taken, this`produced, input`position, input`frameCount, output, midBuffer
      ensures Configured() && Separate() && NoDrift() && input.frameCount < sampleReq
      ensures old(passes) <= passes && old(taken) <= taken && old(produced) <= produced
      ensures output.frameCount - produced == old(output.frameCount - produced)
      ensures input.frameCount + taken == old(input.frameCount + taken)
      ensures |cuts| == passes - old(passes) && AllFindable(cuts, quickSeek, seekLength)
      ensures Follows(old(Held()), old(output.Contents()), cuts)
    {
      ghost var held, before := Held(), output.Contents();
      cuts := [];
      NoPass(held, InForce());
      assert Follows(held, before, cuts);
      assert AllFindable(cuts, quickSeek, seekLength);
      ghost var ahead, read := output.frameCount - produced, input.frameCount + taken;
      hide *;
      var pass := 0;
      while input.frameCount >= sampleReq
        invariant Configured() && Separate() && NoDrift() && nominalSkip > 0.0 && pass >= 0
        invariant old(passes) <= passes && old(taken) <= taken && old(produced) <= produced
        invariant output.frameCount - produced == ahead && input.frameCount + taken == read
        invariant |cuts| == passes - old(passes) && AllFindable(cuts, quickSeek, seekLength)
        invariant Follows(held, before, cuts)
        decreases Left(input.frameCount as real - skipFract, nominalSkip)
      {
        cuts := Turn(quickSeek, correlations(pass), floor, held, before, cuts);
        pass := pass + 1;
      }
    }

    /** Every complete sequence in the input is used up, whichever search finds the splice points and whatever
        they are; the frames taken and produced are those that `NoDrift` fixes, and the skip is never cut short.  The
        output is the one that the input and the cuts determine. */
    method Process(quickSeek: bool, correlations: nat -> Correlation, floor: real) returns (ghost cuts: seq<Cut>)
      requires Configured() && Separate() && NoDrift()
      requires quickSeek ==> 124 <= overlapLength && overlapLength + 124 <= seekWindowLength
      modifies this`midBufferDirty, this`skipFract, this`passes, this`taken, this`produced
      modifies input`position, input`frameCount, output, midBuffer
      ensures Configured() && Separate() && NoDrift()
      ensures midBufferDirty == (old(midBufferDirty) && old(input.frameCount) < overlapLength)
      ensures !midBufferDirty ==> input.frameCount < sampleReq
      ensures old(passes) <= passes && old(taken) <= taken && old(produced) <= produced
      ensures output.frameCount - produced == old(output.frameCount - produced)
      ensures input.frameCount + taken
           == old(input.frameCount + taken) - (if old(midBufferDirty) && !midBufferDirty then overlapLength else 0)
      ensures |cuts| == passes - old(passes) && AllFindable(cuts, quickSeek, seekLength)
      ensures Follows(old(Primed()), old(output.Contents()), cuts)
    {
      hide Steady, SampleReq, Hop, Left, EmittedAll, PassedAll, AllTrue;
      Prime();
      ghost var held := Held();
      cuts := [];
      if !midBufferDirty {
        cuts := Drain(quickSeek, correlations, floor);
      } else {
        NoPass(held, InForce());
      }
    }
  }

  /** What the searches can return; only the quick one can go below zero. */
  predicate Findable(offset: int, quickSeek: bool, seekLength: nat) {
    (offset < seekLength || offset == 0) && (if quickSeek then -124 <= offset else 0 <= offset)
  }

  predicate AllFindable(cuts: seq<Cut>, quickSeek: bool, seekLength: nat) {
    forall i :: 0 <= i < |cuts| ==> Findable(cuts[i].offset, quickSeek, seekLength)
  }
}
