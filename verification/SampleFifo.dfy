/** The resizable interleaved stereo FIFO.  `vector` is the Float32Array view over the growable buffer; a
    frame is two consecutive samples, and the unread frames are the slice that `Contents` names. */
module SampleFifo {
  import opened Sequences
  import opened Wrappers

  const DEFAULT_MAX_FRAMES: nat := 131072

  function Min(a: int, b: int): int {
    if a < b then a else b
  }

  /** `target.set(part, at)` */
  function Blit(target: seq<real>, at: nat, part: seq<real>): (result: seq<real>)
    requires at + |part| <= |target|
    ensures |result| == |target|
    ensures result[..at] == target[..at] && result[at..at + |part|] == part
    ensures result[..at + |part|] == target[..at] + part
    ensures forall i :: at + |part| <= i < |target| ==> result[i] == target[i]
  {
    target[..at] + part + target[at + |part|..]
  }

  function Zeros(n: nat): (z: seq<real>)
    ensures |z| == n && forall i :: 0 <= i < n ==> z[i] == 0.0
  {
    seq(n, _ => 0.0)
  }

  lemma Grown(before: seq<real>, part: seq<real>, whole: seq<real>)
    requires before + part <= whole
    ensures |whole| == |before| + |part| ==> whole == before + part
  {
  }

  class FifoSampleBuffer {
    var vector: seq<real>
    var maxSamples: nat
    var position: nat
    var frameCount: nat

    ghost predicate Valid()
      reads this
    {
      2 * (position + frameCount) <= |vector| <= maxSamples
    }

    function StartIndex(): nat
      reads this
    {
      2 * position
    }

    function EndIndex(): nat
      reads this
    {
      2 * (position + frameCount)
    }

    /** The unread samples, oldest first. */
    function Contents(): (s: seq<real>)
      requires Valid()
      reads this
      ensures |s| == 2 * frameCount
    {
      vector[StartIndex()..EndIndex()]
    }

    constructor (maxFrames: nat)
      ensures Valid() && Contents() == [] && vector == [] && position == 0
    {
      vector, maxSamples := [], 2 * maxFrames;
      position, frameCount := 0, 0;
    }

    method Clear()
      requires Valid()
      modifies this
      ensures Valid() && Contents() == [] && position == 0 && vector == Zeros(|old(vector)|)
    {
      vector := Zeros(|vector|);
      position, frameCount := 0, 0;
    }

    /** Makes frames that were written past the end readable. */
    method Put(numFrames: nat)
      requires Valid() && EndIndex() + 2 * numFrames <= |vector|
      modifies this`frameCount
      ensures Valid() && frameCount == old(frameCount) + numFrames
      ensures Contents() == old(Contents()) + vector[old(EndIndex())..old(EndIndex()) + 2 * numFrames]
    {
      frameCount := frameCount + numFrames;
    }

    method Rewind()
      requires Valid()
      modifies this`position, this`vector
      ensures Valid() && position == 0 && Contents() == old(Contents()) && |vector| == |old(vector)|
    {
      if position > 0 {
        vector := Blit(vector, 0, vector[StartIndex()..EndIndex()]);
        position := 0;
      }
    }

    /** Room for `numFrames` frames in all; a fractional number of frames may leave an odd length. */
    method EnsureCapacity(numFrames: real)
      requires Valid() && numFrames >= 0.0
      modifies this`vector, this`maxSamples, this`position
      ensures Valid() && position == 0 && Contents() == old(Contents())
      ensures |vector| == (if |old(vector)| < (numFrames * 2.0).Floor then (numFrames * 2.0).Floor else |old(vector)|)
    {
      var minLength: nat := (numFrames * 2.0).Floor;
      if |vector| < minLength {
        if minLength <= maxSamples {
          Rewind();
          vector := Blit(Zeros(minLength), 0, vector);
        } else {
          maxSamples := 2 * minLength;
          vector := Blit(Zeros(minLength), 0, vector[StartIndex()..EndIndex()]);
          position := 0;
        }
      } else {
        Rewind();
      }
    }

    method EnsureAdditionalCapacity(numFrames: real)
      requires Valid() && numFrames >= 0.0
      modifies this`vector, this`maxSamples, this`position
      ensures Valid() && position == 0 && Contents() == old(Contents())
      ensures |vector| >= ((frameCount as real + numFrames) * 2.0).Floor
    {
      EnsureCapacity(frameCount as real + numFrames);
    }

    /** Stores one frame behind the readable ones, at sample index `at`. */
    method StoreFrame(at: nat, left: real, right: real)
      requires Valid() && EndIndex() <= at && at + 2 <= |vector|
      modifies this`vector
      ensures Valid() && |vector| == |old(vector)| && vector[..at + 2] == old(vector)[..at] + [left, right]
    {
      vector := vector[at := left];
      vector := vector[at + 1 := right];
    }

    /** Frames requested by a `putSamples` call: no count, or none that is positive, means all that follow. */
    static function Requested(length: nat, sourceFrame: nat, numFrames: int): (frames: nat)
      requires numFrames > 0 || 2 * sourceFrame <= length
      ensures numFrames > 0 ==> frames == numFrames
      ensures numFrames <= 0 && length % 2 == 0 ==> 2 * frames == length - 2 * sourceFrame
    {
      if numFrames > 0 then numFrames else (length - 2 * sourceFrame) / 2
    }

    /** What the source has of those frames; `subarray` clamps both ends. */
    static function Subarray(samples: seq<real>, sourceFrame: nat, frames: nat): seq<real> {
      var start := Min(2 * sourceFrame, |samples|);
      samples[start..Min(start + 2 * frames, |samples|)]
    }

    /** Copies what the source has of the requested frames and counts all of them. */
    method PutSamples(samples: seq<real>, sourceFrame: nat, numFrames: int)
      requires Valid() && (numFrames > 0 || (2 * sourceFrame <= |samples| && |samples| % 2 == 0))
      modifies this
      ensures Valid() && position == 0
      ensures frameCount == old(frameCount) + Requested(|samples|, sourceFrame, numFrames)
      ensures old(Contents()) + Subarray(samples, sourceFrame, Requested(|samples|, sourceFrame, numFrames)) <= Contents()
    {
      var frames := Requested(|samples|, sourceFrame, numFrames);
      EnsureCapacity((frames + frameCount) as real);
      vector := Blit(vector, EndIndex(), Subarray(samples, sourceFrame, frames));
      frameCount := frameCount + frames;
    }

    /** The number of frames that a `putBuffer` call asks for; none stands for all that the store holds. */
    function Wanted(skip: nat, numFrames: int): nat
      reads this
    {
      if numFrames > 0 then numFrames else if skip < frameCount then frameCount - skip else 0
    }

    /** With a positive number of frames, given or left over, exactly that part of the other buffer is
        appended.  With none left over the request degenerates: `putSamples` is asked for everything that
        the backing store holds from there on, unread or not.  A number that exceeds what is left over copies on from
        the store and counts frames for which nothing was copied. */
    method PutBuffer(buffer: FifoSampleBuffer, skip: nat, numFrames: int)
      requires Valid() && buffer.Valid() && buffer != this
      requires buffer.Wanted(skip, numFrames) > 0 || (2 * (buffer.position + skip) <= |buffer.vector| && |buffer.vector| % 2 == 0)
      modifies this
      ensures Valid()
      ensures buffer.Wanted(skip, numFrames) > 0 ==>
        && frameCount == old(frameCount) + buffer.Wanted(skip, numFrames)
        && old(Contents()) + buffer.Stored(skip, buffer.Wanted(skip, numFrames)) <= Contents()
      ensures buffer.Wanted(skip, numFrames) > 0 && skip + buffer.Wanted(skip, numFrames) <= buffer.frameCount ==>
        Contents() == old(Contents()) + buffer.Unread(skip, buffer.Wanted(skip, numFrames))
      ensures buffer.Wanted(skip, numFrames) == 0 ==>
        Contents() == old(Contents()) + buffer.vector[2 * (buffer.position + skip)..]
    {
      var frames := if numFrames > 0 then numFrames else buffer.frameCount - skip;
      buffer.WantedIs(skip, numFrames, frames);
      hide *;
      ghost var asked := Requested(|buffer.vector|, buffer.position + skip, frames);
      ghost var before, part := Contents(), Subarray(buffer.vector, buffer.position + skip, asked);
      PutSamples(buffer.vector, buffer.position + skip, frames);
      Grown(before, part, Contents());
    }

    /** What a `putBuffer` call passes on. */
    lemma WantedIs(skip: nat, numFrames: int, frames: int)
      requires Valid() && frames == if numFrames > 0 then numFrames else frameCount - skip
      requires Wanted(skip, numFrames) > 0 || (2 * (position + skip) <= |vector| && |vector| % 2 == 0)
      ensures frames > 0 || (2 * (position + skip) <= |vector| && |vector| % 2 == 0)
      ensures var asked := Requested(|vector|, position + skip, frames);
        var part := Subarray(vector, position + skip, asked);
        && (Wanted(skip, numFrames) > 0 ==> asked == Wanted(skip, numFrames) && part == Stored(skip, asked))
        && (Wanted(skip, numFrames) > 0 && skip + asked <= frameCount ==> |part| == 2 * asked && part == Unread(skip, asked))
        && (Wanted(skip, numFrames) == 0 ==> |part| == 2 * asked && part == vector[2 * (position + skip)..])
    {
      StoredIs(skip, Wanted(skip, numFrames));
    }

    lemma StoredIs(skip: nat, numFrames: nat)
      requires Valid()
      ensures skip + numFrames <= frameCount ==> Stored(skip, numFrames) == Unread(skip, numFrames)
    {
      if skip + numFrames <= frameCount {
        SliceOfSlice(vector, StartIndex(), EndIndex(), 2 * skip, 2 * (skip + numFrames));
      }
    }

    static function Received(frameCount: nat, numFrames: Option<int>): nat {
      match numFrames
      case Some(n) => if 0 <= n <= frameCount then n else frameCount
      case None => frameCount
    }

    /** Drops frames from the front: all of them when the count is absent, negative or too large. */
    method Receive(numFrames: Option<int>)
      requires Valid()
      modifies this`position, this`frameCount
      ensures Valid() && Contents() == old(Contents())[2 * Received(old(frameCount), numFrames)..]
      ensures position == old(position) + Received(old(frameCount), numFrames)
    {
      var received := if numFrames.None? || numFrames.value < 0 || numFrames.value > frameCount then frameCount else numFrames.value;
      frameCount := frameCount - received;
      position := position + received;
    }

    /** `numFrames` of the unread frames, from the one numbered `skip` on. */
    ghost function Unread(skip: nat, numFrames: nat): (s: seq<real>)
      requires Valid() && skip + numFrames <= frameCount
      reads this
      ensures |s| == 2 * numFrames
    {
      Contents()[2 * skip..2 * (skip + numFrames)]
    }

    /** What the store holds from frame `skip` of the unread ones on, at most `numFrames` frames of it. */
    ghost function Stored(skip: nat, numFrames: nat): seq<real>
      reads this
    {
      Subarray(vector, position + skip, numFrames)
    }

    /** Copies samples without consuming them; a stretch that goes on behind the unread frames copies what the
        store holds there. */
    method Extract(skip: nat, numFrames: nat) returns (output: seq<real>)
      requires Valid()
      ensures output == Stored(skip, numFrames)
      ensures skip + numFrames <= frameCount ==> output == Unread(skip, numFrames)
    {
      output := Subarray(vector, position + skip, numFrames);
      StoredIs(skip, numFrames);
    }

    /** Copies and consumes.  When more is asked for than is unread, everything unread is consumed and what the store
        holds behind it is copied as well. */
    method ReceiveSamples(numFrames: nat) returns (output: seq<real>)
      requires Valid()
      modifies this`position, this`frameCount
      ensures Valid() && output == old(Stored(0, numFrames))
      ensures numFrames <= old(frameCount) ==> output + Contents() == old(Contents()) && |output| == 2 * numFrames
      ensures numFrames > old(frameCount) ==> Contents() == [] && old(Contents()) <= output
      ensures position == old(position) + Min(numFrames, old(frameCount))
    {
      output := Extract(0, numFrames);
      Receive(Some(numFrames));
    }
  }
}
