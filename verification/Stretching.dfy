/** The arithmetic of the time stretcher: its parameters, how far each pass moves and what it mixes. */
module Stretching {
  import opened Resampling

  function Max(a: int, b: int): int {
    if a > b then a else b
  }

  function Limit(x: real, low: real, high: real): real {
    if x < low then low else if x > high then high else x
  }

  const SAMPLE_RATE: nat := 44100
  const OVERLAP_MS: nat := 8
  const TEMPO_LOW: real := 0.25
  const TEMPO_TOP: real := 4.0

  /** A length in milliseconds that falls linearly from `atLow` to `atTop` over the tempo range. */
  function AutoMs(tempo: real, atLow: real, atTop: real): int {
    var k := (atTop - atLow) / (TEMPO_TOP - TEMPO_LOW);
    var c := atLow - k * TEMPO_LOW;
    (Limit(c + k * tempo, atTop, atLow) + 0.5).Floor
  }

  function SequenceMs(tempo: real): int {
    AutoMs(tempo, 125.0, 50.0)
  }

  function SeekWindowMs(tempo: real): int {
    AutoMs(tempo, 25.0, 15.0)
  }

  function Frames(sampleRate: nat, ms: nat): nat {
    sampleRate * ms / 1000
  }

  /** At least 16 frames, rounded down to a multiple of 8. */
  function OverlapFrames(sampleRate: nat, ms: nat): nat {
    var frames := sampleRate as real * ms as real / 1000.0;
    (if frames < 16.0 then 16 else frames.Floor) / 8 * 8
  }

  function SampleReq(nominalSkip: real, overlapLength: nat, seekWindowLength: nat, seekLength: nat): int {
    Max((nominalSkip + 0.5).Floor + overlapLength, seekWindowLength) + seekLength
  }

  function NominalSkip(tempo: real, frames: int): (skip: real)
    ensures tempo > 0.0 && frames > 0 ==> skip > 0.0
  {
    tempo * frames as real
  }

  /** Output frames of one pass. */
  function Hop(overlapLength: nat, seekWindowLength: nat): nat {
    overlapLength + Max(0, seekWindowLength - 2 * overlapLength)
  }

  /** What the shipped configuration gives for every tempo: room for two overlaps in a sequence. */
  lemma ShippedConfiguration(tempo: real)
    requires tempo > 0.0
    ensures 50 <= SequenceMs(tempo) <= 125 && 15 <= SeekWindowMs(tempo) <= 25
    ensures OverlapFrames(SAMPLE_RATE, OVERLAP_MS) == 352
    ensures Frames(SAMPLE_RATE, SequenceMs(tempo)) >= 2205
    ensures NominalSkip(tempo, Frames(SAMPLE_RATE, SequenceMs(tempo)) - OverlapFrames(SAMPLE_RATE, OVERLAP_MS)) > 0.0
  {
    assert SAMPLE_RATE as real * OVERLAP_MS as real / 1000.0 == 352.8;
    var ms := SequenceMs(tempo);
    assert SAMPLE_RATE * ms / 1000 >= SAMPLE_RATE * 50 / 1000;
  }

  // ---- Moving on without drift ----

  /** After `passes` passes of a fixed skip: the frames taken are its exact multiple rounded down, the fraction is
      what that leaves over, and every pass has put out the same number of frames. */
  ghost predicate Steady(passes: nat, taken: nat, fract: real, nominalSkip: real, produced: nat, hop: nat) {
    && taken == (passes as real * nominalSkip).Floor
    && fract == passes as real * nominalSkip - taken as real
    && produced == passes * hop
  }

  lemma SteadyStart(nominalSkip: real, hop: nat)
    ensures Steady(0, 0, 0.0, nominalSkip, 0, hop)
  {
  }

  /** The integer part taken and the fraction kept by one pass. */
  lemma SteadyStep(passes: nat, taken: nat, fract: real, nominalSkip: real, produced: nat, hop: nat)
    requires Steady(passes, taken, fract, nominalSkip, produced, hop) && nominalSkip > 0.0
    ensures 0.0 <= fract < 1.0
    ensures var skip := (fract + nominalSkip).Floor;
      skip >= 0 && Steady(passes + 1, taken + skip, fract + nominalSkip - skip as real, nominalSkip, produced + hop, hop)
  {
    var skip := (fract + nominalSkip).Floor;
    assert (passes + 1) as real * nominalSkip == passes as real * nominalSkip + nominalSkip == taken as real + (fract + nominalSkip);
    assert (passes + 1) * hop == passes * hop + hop;
  }

  lemma Balance(frames: int, fract: real, nominalSkip: real)
    ensures var skip := (fract + nominalSkip).Floor;
      (frames - skip) as real - (fract + nominalSkip - skip as real) == frames as real - fract - nominalSkip
  {
  }

  /** One pass never skips past the frames it required. */
  lemma SkipFits(fract: real, nominalSkip: real, overlapLength: nat, seekWindowLength: nat, seekLength: nat)
    requires 0.0 <= fract < 1.0 && nominalSkip > 0.0 && overlapLength >= 1
    ensures 0 <= (fract + nominalSkip).Floor <= SampleReq(nominalSkip, overlapLength, seekWindowLength, seekLength)
  {
  }

  /** A sequence at any offset below `seekLength` lies within the frames that a pass requires. */
  lemma SequenceFits(nominalSkip: real, overlapLength: nat, seekWindowLength: nat, seekLength: nat)
    ensures seekLength + seekWindowLength <= SampleReq(nominalSkip, overlapLength, seekWindowLength, seekLength)
  {
  }

  /** The number of passes a position can still make, as the loop's measure. */
  function Left(frames: real, nominalSkip: real): int
    requires nominalSkip > 0.0
  {
    (frames / nominalSkip).Floor
  }

  lemma LeftFalls(frames: real, nominalSkip: real)
    requires nominalSkip > 0.0
    ensures Left(frames - nominalSkip, nominalSkip) == Left(frames, nominalSkip) - 1
    ensures frames >= 0.0 ==> Left(frames, nominalSkip) >= 0
  {
    var n: int := Left(frames, nominalSkip);
    var q, r := frames / nominalSkip, (frames - nominalSkip) / nominalSkip;
    Quotient(q, nominalSkip, frames, n);
    Quotient(q, nominalSkip, frames, n + 1);
    Quotient(r, nominalSkip, frames - nominalSkip, n - 1);
    Quotient(r, nominalSkip, frames - nominalSkip, n);
    Quotient(q, nominalSkip, frames, 0);
  }

  // ---- Mixing ----

  /** Sample `k` of the crossfade from `mid` to `window`, both interleaved. */
  function Fade(mid: real, window: real, i: nat, overlapLength: nat): real
    requires overlapLength > 0
  {
    var frameScale := 1.0 / overlapLength as real;
    window * (i as real * frameScale) + mid * ((overlapLength - i) as real * frameScale)
  }

  function Crossfade(mid: seq<real>, window: seq<real>, overlapLength: nat): (out: seq<real>)
    requires overlapLength > 0 && |mid| >= 2 * overlapLength && |window| >= 2 * overlapLength
    ensures |out| == 2 * overlapLength
  {
    seq(2 * overlapLength, k requires 0 <= k < 2 * overlapLength => Fade(mid[k], window[k], k / 2, overlapLength))
  }

  lemma WholeFrames(frameCount: nat, more: nat)
    ensures ((frameCount as real + more as real) * 2.0).Floor == 2 * (frameCount + more)
  {
  }

  /** `n` samples from index `start`; what lies outside the store is undefined in the source. */
  function Window(store: seq<real>, start: int, n: nat): (w: seq<real>)
    ensures |w| == n
    ensures 0 <= start && start + n <= |store| ==> w == store[start..start + n]
  {
    seq(n, k requires 0 <= k < n => if 0 <= start + k < |store| then store[start + k] else 0.0)
  }

  /** Frame `i` of the crossfade into the window at `start`. */
  lemma FadedFrame(mid: seq<real>, store: seq<real>, start: int, i: nat, overlapLength: nat)
    requires i < overlapLength && |mid| >= 2 * overlapLength
    ensures var faded, k := Crossfade(mid, Window(store, start, 2 * overlapLength), overlapLength), 2 * i;
      && faded[k] == Fade(mid[k], if 0 <= start + k < |store| then store[start + k] else 0.0, i, overlapLength)
      && faded[k + 1] == Fade(mid[k + 1], if 0 <= start + k + 1 < |store| then store[start + k + 1] else 0.0, i, overlapLength)
  {
    hide Fade;
    assert (2 * i + 1) / 2 == i;
  }

  /** A window at `offset` shows the unread samples wherever it lies over them.  At an offset that is not negative that
      is everywhere; before the first unread frame the source reads whatever its store still holds. */
  ghost predicate Shows(window: seq<real>, frames: seq<real>, offset: int, overlapLength: nat) {
    && |window| == 2 * overlapLength
    && forall k :: 0 <= k < |window| && 0 <= 2 * offset + k < |frames| ==> window[k] == frames[2 * offset + k]
  }

  lemma WindowShows(store: seq<real>, first: nat, end: nat, offset: int, overlapLength: nat)
    requires first <= end <= |store|
    ensures Shows(Window(store, first + 2 * offset, 2 * overlapLength), store[first..end], offset, overlapLength)
  {
    var window, frames := Window(store, first + 2 * offset, 2 * overlapLength), store[first..end];
    forall k | 0 <= k < |window| && 0 <= 2 * offset + k < |frames|
      ensures window[k] == frames[2 * offset + k]
    {
      assert window[k] == store[first + 2 * offset + k];
    }
  }

  /** Everything one pass puts out: the crossfade into the window and the middle of the sequence. */
  function Splice(mid: seq<real>, window: seq<real>, frames: seq<real>, offset: int, overlapLength: nat, seekWindowLength: nat): seq<real>
    requires 0 < overlapLength <= seekWindowLength && |mid| >= 2 * overlapLength && |window| == 2 * overlapLength
    requires 0 <= offset + overlapLength && 2 * (offset + seekWindowLength) <= |frames|
  {
    Crossfade(mid, window, overlapLength)
    + (if seekWindowLength > 2 * overlapLength
       then frames[2 * (offset + overlapLength)..2 * (offset + overlapLength + (seekWindowLength - 2 * overlapLength))] else [])
  }

  lemma SpliceParts(before: seq<real>, mid: seq<real>, window: seq<real>, frames: seq<real>, offset: int,
                    overlapLength: nat, seekWindowLength: nat, faded: seq<real>, all: seq<real>)
    requires 0 < overlapLength <= seekWindowLength && |mid| >= 2 * overlapLength && |window| == 2 * overlapLength
    requires 0 <= offset + overlapLength && 2 * (offset + seekWindowLength) <= |frames|
    requires faded == before + Crossfade(mid, window, overlapLength)
    requires var temp := seekWindowLength - 2 * overlapLength;
      if temp > 0 then all == faded + frames[2 * (offset + overlapLength)..2 * (offset + overlapLength + temp)] else all == faded
    ensures all == before + Splice(mid, window, frames, offset, overlapLength, seekWindowLength)
  {
  }

  /** The tail kept for the next crossfade. */
  function Tail(frames: seq<real>, offset: int, overlapLength: nat, seekWindowLength: nat): (tail: seq<real>)
    requires overlapLength <= offset + seekWindowLength && 2 * (offset + seekWindowLength) <= |frames|
    ensures |tail| == 2 * overlapLength
  {
    frames[2 * (offset + seekWindowLength - overlapLength)..2 * (offset + seekWindowLength)]
  }

  // ---- The stretcher on values ----

  /** What a stretcher holds between passes: the kept tail, the unread samples and the fraction. */
  datatype Tape = Tape(mid: seq<real>, frames: seq<real>, fract: real)

  /** What does not change while a tempo is set. */
  datatype Setting = Setting(nominalSkip: real, overlapLength: nat, seekWindowLength: nat)

  /** One pass: where it splices, and the window it fades into. */
  datatype Cut = Cut(offset: int, window: seq<real>)

  function Skip(t: Tape, g: Setting): int {
    (t.fract + g.nominalSkip).Floor
  }

  predicate Fits(t: Tape, c: Cut, g: Setting) {
    && 0 < g.overlapLength <= g.seekWindowLength && |t.mid| == |c.window| == 2 * g.overlapLength
    && 0 <= c.offset + g.overlapLength && g.overlapLength <= c.offset + g.seekWindowLength
    && 2 * (c.offset + g.seekWindowLength) <= |t.frames|
    && 0 <= 2 * Skip(t, g) <= |t.frames|
  }

  function Emitted(t: Tape, c: Cut, g: Setting): seq<real> {
    if Fits(t, c, g) then Splice(t.mid, c.window, t.frames, c.offset, g.overlapLength, g.seekWindowLength) else []
  }

  function Passed(t: Tape, c: Cut, g: Setting): Tape {
    if Fits(t, c, g)
    then Tape(Tail(t.frames, c.offset, g.overlapLength, g.seekWindowLength), t.frames[2 * Skip(t, g)..],
              t.fract + g.nominalSkip - Skip(t, g) as real)
    else t
  }

  /** A cut that the held frames determine but for what lies before them. */
  ghost predicate True(t: Tape, c: Cut, g: Setting) {
    Fits(t, c, g) && Shows(c.window, t.frames, c.offset, g.overlapLength)
  }

  lemma PassParts(t: Tape, c: Cut, g: Setting, skip: nat)
    requires 0 < g.overlapLength <= g.seekWindowLength && |t.mid| == 2 * g.overlapLength
    requires 0 <= c.offset + g.overlapLength && g.overlapLength <= c.offset + g.seekWindowLength
    requires 2 * (c.offset + g.seekWindowLength) <= |t.frames| && skip == (t.fract + g.nominalSkip).Floor && 2 * skip <= |t.frames|
    requires Shows(c.window, t.frames, c.offset, g.overlapLength)
    ensures True(t, c, g)
    ensures Emitted(t, c, g) == Splice(t.mid, c.window, t.frames, c.offset, g.overlapLength, g.seekWindowLength)
    ensures Passed(t, c, g) == Tape(Tail(t.frames, c.offset, g.overlapLength, g.seekWindowLength), t.frames[2 * skip..],
                                    t.fract + g.nominalSkip - skip as real)
  {
  }

  function PassedAll(t: Tape, cuts: seq<Cut>, g: Setting): Tape {
    if cuts == [] then t else Passed(PassedAll(t, cuts[..|cuts| - 1], g), cuts[|cuts| - 1], g)
  }

  /** Everything those passes put out. */
  function EmittedAll(t: Tape, cuts: seq<Cut>, g: Setting): seq<real> {
    if cuts == [] then []
    else
      var front := cuts[..|cuts| - 1];
      EmittedAll(t, front, g) + Emitted(PassedAll(t, front, g), cuts[|cuts| - 1], g)
  }

  /** Every cut is one of the frames held when it was made. */
  ghost predicate AllTrue(t: Tape, cuts: seq<Cut>, g: Setting) {
    cuts == [] ||
    (AllTrue(t, cuts[..|cuts| - 1], g) && True(PassedAll(t, cuts[..|cuts| - 1], g), cuts[|cuts| - 1], g))
  }

  lemma NoPass(t: Tape, g: Setting)
    ensures PassedAll(t, [], g) == t && EmittedAll(t, [], g) == [] && AllTrue(t, [], g)
  {
  }

  lemma OneMorePass(t: Tape, cuts: seq<Cut>, c: Cut, g: Setting)
    ensures PassedAll(t, cuts + [c], g) == Passed(PassedAll(t, cuts, g), c, g)
    ensures EmittedAll(t, cuts + [c], g) == EmittedAll(t, cuts, g) + Emitted(PassedAll(t, cuts, g), c, g)
    ensures AllTrue(t, cuts + [c], g) <==> AllTrue(t, cuts, g) && True(PassedAll(t, cuts, g), c, g)
  {
    hide Passed, Emitted, True;
    assert (cuts + [c])[..|cuts|] == cuts;
  }

  lemma TrueInside(t: Tape, c: Cut, g: Setting)
    requires True(t, c, g) && c.offset >= 0
    ensures 2 * (c.offset + g.overlapLength) <= |t.frames|
    ensures c.window == t.frames[2 * c.offset..2 * (c.offset + g.overlapLength)]
  {
  }

  /** The offsets alone decide: with none of them negative, true cuts at the same offsets are the same, so that they
      put out the same and leave the same. */
  lemma {:induction false} OffsetsDecide(t: Tape, xs: seq<Cut>, ys: seq<Cut>, g: Setting)
    requires AllTrue(t, xs, g) && AllTrue(t, ys, g) && |xs| == |ys|
    requires forall i :: 0 <= i < |xs| ==> xs[i].offset == ys[i].offset >= 0
    ensures xs == ys && EmittedAll(t, xs, g) == EmittedAll(t, ys, g) && PassedAll(t, xs, g) == PassedAll(t, ys, g)
  {
    hide True, EmittedAll, PassedAll;
    if xs == [] {
    } else {
      var last := |xs| - 1;
      OffsetsDecide(t, xs[..last], ys[..last], g);
      TrueInside(PassedAll(t, xs[..last], g), xs[last], g);
      TrueInside(PassedAll(t, ys[..last], g), ys[last], g);
      assert xs[last] == ys[last];
      assert xs == xs[..last] + [xs[last]] && ys == ys[..last] + [ys[last]];
    }
  }

  /** The next pass, wherever it splices, goes on with the very frame behind the last one put out: with two
      overlaps in a sequence, copied frames and first crossfaded frame are neighbours in the input. */
  lemma PassesJoin(t: Tape, c: Cut, nextFrames: seq<real>, next: Cut, g: Setting)
    requires Fits(t, c, g) && 2 * g.overlapLength < g.seekWindowLength
    requires Fits(Tape(Passed(t, c, g).mid, nextFrames, Passed(t, c, g).fract), next, g)
    ensures var first, second := Emitted(t, c, g), Emitted(Tape(Passed(t, c, g).mid, nextFrames, Passed(t, c, g).fract), next, g);
      var seam := 2 * (c.offset + g.seekWindowLength - g.overlapLength);
      && |first| == 2 * Hop(g.overlapLength, g.seekWindowLength) && |second| >= 2 && 2 <= seam <= |t.frames| - 2
      && first[|first| - 2..] + second[..2] == t.frames[seam - 2..seam + 2]
  {
    hide Fade, Crossfade;
    var tail, seam := Tail(t.frames, c.offset, g.overlapLength, g.seekWindowLength), 2 * (c.offset + g.seekWindowLength - g.overlapLength);
    SpliceEnds(t.mid, c.window, t.frames, c.offset, g.overlapLength, g.seekWindowLength);
    SpliceStarts(tail, next.window, nextFrames, next.offset, g.overlapLength, g.seekWindowLength);
    hide Splice, Hop;
    assert tail[..2] == t.frames[seam..seam + 2];
    assert t.frames[seam - 2..seam] + t.frames[seam..seam + 2] == t.frames[seam - 2..seam + 2];
  }

  lemma SpliceStarts(mid: seq<real>, window: seq<real>, frames: seq<real>, offset: int, overlapLength: nat, seekWindowLength: nat)
    requires 0 < overlapLength <= seekWindowLength && |mid| >= 2 * overlapLength && |window| == 2 * overlapLength
    requires 0 <= offset + overlapLength && 2 * (offset + seekWindowLength) <= |frames|
    ensures var all := Splice(mid, window, frames, offset, overlapLength, seekWindowLength);
      |all| >= 2 && all[..2] == mid[..2]
  {
    CrossfadeStartsOnTail(mid, window, overlapLength);
    hide Fade, Crossfade;
    var faded := Crossfade(mid, window, overlapLength);
    assert faded[..2] == mid[..2];
  }

  lemma SpliceEnds(mid: seq<real>, window: seq<real>, frames: seq<real>, offset: int, overlapLength: nat, seekWindowLength: nat)
    requires 0 < overlapLength && 2 * overlapLength < seekWindowLength && |mid| >= 2 * overlapLength && |window| == 2 * overlapLength
    requires 0 <= offset + overlapLength && 2 * (offset + seekWindowLength) <= |frames|
    ensures var all, seam := Splice(mid, window, frames, offset, overlapLength, seekWindowLength), 2 * (offset + seekWindowLength - overlapLength);
      |all| == 2 * Hop(overlapLength, seekWindowLength) && seam >= 2 && all[|all| - 2..] == frames[seam - 2..seam]
  {
    hide Crossfade;
  }

  /** No seam: the crossfade starts exactly on the first frame of the kept tail, whatever it fades to. */
  lemma CrossfadeStartsOnTail(mid: seq<real>, window: seq<real>, overlapLength: nat)
    requires overlapLength > 0 && |mid| >= 2 * overlapLength && |window| >= 2 * overlapLength
    ensures Crossfade(mid, window, overlapLength)[..2] == mid[..2]
  {
    var scale := 1.0 / overlapLength as real;
    assert overlapLength as real * scale == 1.0;
    forall k | 0 <= k < 2
      ensures Fade(mid[k], window[k], 0, overlapLength) == mid[k]
    {
      assert mid[k] * (overlapLength as real * scale) == mid[k];
    }
  }

  /** Fading between equal signals changes nothing. */
  lemma CrossfadeOfSame(mid: seq<real>, overlapLength: nat)
    requires overlapLength > 0 && |mid| == 2 * overlapLength
    ensures Crossfade(mid, mid, overlapLength) == mid
  {
    var scale := 1.0 / overlapLength as real;
    forall k | 0 <= k < 2 * overlapLength
      ensures Fade(mid[k], mid[k], k / 2, overlapLength) == mid[k]
    {
      var i := k / 2;
      assert i as real * scale + (overlapLength - i) as real * scale == overlapLength as real * scale == 1.0;
      assert mid[k] * (i as real * scale) + mid[k] * ((overlapLength - i) as real * scale)
          == mid[k] * (i as real * scale + (overlapLength - i) as real * scale);
    }
  }
}
