/** The walk over a PNG or WebP container, and the chunk grammar of the files it accepts. */
module StaticContainer {
  import opened DecoderProtocol
  import opened Octets

  const CHUNK_LIMIT: nat := 100000

  datatype Format = Png | Webp

  const ACTL: Bytes := [97, 99, 84, 76]
  const FCTL: Bytes := [102, 99, 84, 76]
  const FDAT: Bytes := [102, 100, 65, 84]
  const IEND: Bytes := [73, 69, 78, 68]
  const ANIM: Bytes := [65, 78, 73, 77]
  const ANMF: Bytes := [65, 78, 77, 70]
  const VP8X: Bytes := [86, 80, 56, 88]

  // ---- The grammar ----

  /** A PNG chunk ends in a checksum of four bytes, a WebP chunk of odd length in one byte of padding. */
  datatype Chunk = Chunk(kind: Bytes, payload: Bytes, tail: Bytes)

  function Reversed(b: Bytes): (r: Bytes)
    requires |b| == 4
    ensures |r| == 4
  {
    [b[3], b[2], b[1], b[0]]
  }

  function TailLength(format: Format, length: nat): nat {
    if format.Png? then 4 else length % 2
  }

  ghost predicate WellFormed(format: Format, c: Chunk) {
    |c.kind| == 4 && |c.payload| < 0x1_0000_0000 && |c.tail| == TailLength(format, |c.payload|)
  }

  ghost function Written(format: Format, c: Chunk): Bytes
    requires WellFormed(format, c)
  {
    (if format.Png? then Size(|c.payload|) + c.kind else c.kind + Reversed(Size(|c.payload|))) + c.payload + c.tail
  }

  ghost function Body(format: Format, cs: seq<Chunk>): Bytes
    requires forall i :: 0 <= i < |cs| ==> WellFormed(format, cs[i])
  {
    if cs == [] then [] else Written(format, cs[0]) + Body(format, cs[1..])
  }

  predicate Animated(format: Format, kind: Bytes) {
    if format.Png? then kind == ACTL || kind == FCTL || kind == FDAT else kind == ANIM || kind == ANMF
  }

  /** Bit 1 of the flags byte is the animation flag. */
  predicate AnimationFlag(flags: Byte) {
    flags / 2 % 2 == 1
  }

  /** No animation chunk, and an extended header is long enough and does not announce one. */
  ghost predicate Still(format: Format, c: Chunk) {
    && !Animated(format, c.kind)
    && (format.Webp? && c.kind == VP8X ==> |c.payload| >= 10 && !AnimationFlag(c.payload[0]))
  }

  /** Of PNG chunks exactly the last is an end chunk, and it is empty. */
  ghost predicate Closed(format: Format, cs: seq<Chunk>) {
    format.Png? ==>
      && cs != [] && cs[|cs| - 1].kind == IEND && cs[|cs| - 1].payload == []
      && (forall i :: 0 <= i < |cs| - 1 ==> cs[i].kind != IEND)
  }

  ghost predicate Derives(format: Format, rest: Bytes, limit: int, cs: seq<Chunk>) {
    && |cs| <= limit && Closed(format, cs)
    && (forall i :: 0 <= i < |cs| ==> WellFormed(format, cs[i]) && Still(format, cs[i]))
    && rest == Body(format, cs)
  }

  function Start(format: Format): nat {
    if format.Png? then 8 else 12
  }

  /** A file of the grammar: a signature and at most 100,000 chunks, up to the last byte. */
  ghost predicate IsStatic(format: Format, file: Bytes, cs: seq<Chunk>) {
    |file| >= Start(format) && Derives(format, file[Start(format)..], CHUNK_LIMIT, cs)
  }

  // ---- The walk ----

  function LengthAt(format: Format, rest: Bytes): nat
    requires |rest| >= 8
  {
    if format.Png? then Number(rest[..4]) else Number(Reversed(rest[4..8]))
  }

  function KindAt(format: Format, rest: Bytes): Bytes
    requires |rest| >= 8
  {
    if format.Png? then rest[4..8] else rest[..4]
  }

  function EndOf(format: Format, length: nat): nat {
    8 + length + TailLength(format, length)
  }

  datatype Verdict = Refuse | Finish | Continue(end: nat)

  /** What the next chunk leads to. */
  function Peek(format: Format, rest: Bytes): (v: Verdict)
    ensures v.Continue? ==> 8 <= v.end <= |rest|
  {
    if |rest| < (if format.Png? then 12 else 8) then Refuse
    else
      var length, kind := LengthAt(format, rest), KindAt(format, rest);
      var end := EndOf(format, length);
      if end > |rest| || Animated(format, kind) then Refuse
      else if format.Webp? && kind == VP8X && (length < 10 || AnimationFlag(rest[8])) then Refuse
      else if format.Png? && kind == IEND then (if length == 0 && end == |rest| then Finish else Refuse)
      else Continue(end)
  }

  /** The verdict on what is left of the file after `chunks` chunks. */
  predicate Walk(format: Format, rest: Bytes, chunks: nat)
    decreases |rest|
  {
    if rest == [] then format.Webp?
    else if chunks + 1 > CHUNK_LIMIT then false
    else match Peek(format, rest)
      case Refuse => false
      case Finish => true
      case Continue(end) => Walk(format, rest[end..], chunks + 1)
  }

  lemma WalkOpens(format: Format, rest: Bytes, chunks: nat)
    ensures rest == [] ==> Walk(format, rest, chunks) == format.Webp?
    ensures rest != [] && chunks >= CHUNK_LIMIT ==> !Walk(format, rest, chunks)
    ensures rest != [] && chunks < CHUNK_LIMIT ==>
      match Peek(format, rest)
      case Refuse => !Walk(format, rest, chunks)
      case Finish => Walk(format, rest, chunks)
      case Continue(end) => Walk(format, rest, chunks) == Walk(format, rest[end..], chunks + 1)
  {
    hide Peek;
  }

  predicate EndChunk(format: Format, c: Chunk) {
    format.Png? && c.kind == IEND
  }

  /** The first chunk of what is left. */
  ghost function Head(format: Format, rest: Bytes): Chunk
    requires |rest| >= 8 && EndOf(format, LengthAt(format, rest)) <= |rest|
  {
    var length := LengthAt(format, rest);
    Chunk(KindAt(format, rest), rest[8..8 + length], rest[8 + length..EndOf(format, length)])
  }

  lemma HeadIsWritten(format: Format, rest: Bytes)
    requires |rest| >= 8 && EndOf(format, LengthAt(format, rest)) <= |rest|
    ensures WellFormed(format, Head(format, rest))
    ensures rest == Written(format, Head(format, rest)) + rest[EndOf(format, LengthAt(format, rest))..]
  {
    var length := LengthAt(format, rest);
    var field := if format.Png? then rest[..4] else Reversed(rest[4..8]);
    SizeOfNumber(field);
    assert rest == rest[..4] + rest[4..8] + rest[8..8 + length] + rest[8 + length..EndOf(format, length)] + rest[EndOf(format, length)..];
    assert format.Webp? ==> Reversed(field) == rest[4..8];
  }

  /** A chunk that is not refused is a chunk of the grammar. */
  lemma PeekSound(format: Format, rest: Bytes) returns (c: Chunk)
    requires !Peek(format, rest).Refuse?
    ensures WellFormed(format, c) && Still(format, c)
    ensures Peek(format, rest).Finish? ==> EndChunk(format, c) && c.payload == [] && rest == Written(format, c)
    ensures Peek(format, rest).Continue? ==> !EndChunk(format, c) && rest == Written(format, c) + rest[Peek(format, rest).end..]
  {
    hide Number, Size;
    HeadIsWritten(format, rest);
    hide Written, WellFormed;
    c := Head(format, rest);
    if Peek(format, rest).Finish? {
      assert rest[EndOf(format, LengthAt(format, rest))..] == [];
    }
  }

  lemma WrittenIsHead(format: Format, c: Chunk, more: Bytes)
    requires WellFormed(format, c)
    ensures |Written(format, c)| == EndOf(format, |c.payload|) >= 8
    ensures var rest := Written(format, c) + more;
      && LengthAt(format, rest) == |c.payload| && KindAt(format, rest) == c.kind
      && rest[EndOf(format, |c.payload|)..] == more && rest[8..8 + |c.payload|] == c.payload
  {
    NumberOfSize(|c.payload|);
    hide Number;
    var rest, size := Written(format, c) + more, Size(|c.payload|);
    hide Size;
    assert format.Png? ==> rest[..4] == size && rest[4..8] == c.kind;
    assert format.Webp? ==> rest[..4] == c.kind && rest[4..8] == Reversed(size) && Reversed(rest[4..8]) == size;
  }

  /** A chunk of the grammar is not refused, an end chunk only where it belongs. */
  lemma PeekComplete(format: Format, c: Chunk, more: Bytes)
    requires WellFormed(format, c) && Still(format, c)
    ensures !EndChunk(format, c) ==> Peek(format, Written(format, c) + more) == Continue(|Written(format, c)|)
    ensures EndChunk(format, c) && c.payload == [] && more == [] ==> Peek(format, Written(format, c) + more) == Finish
    ensures |Written(format, c)| > 0
  {
    hide Number, Size;
    WrittenIsHead(format, c, more);
    hide Written, LengthAt, KindAt;
    var rest := Written(format, c) + more;
    if |c.payload| >= 10 {
      assert rest[8] == rest[8..8 + |c.payload|][0];
    }
  }

  lemma DerivesCons(format: Format, c: Chunk, more: Bytes, limit: int, cs: seq<Chunk>)
    requires WellFormed(format, c) && Still(format, c) && !EndChunk(format, c) && Derives(format, more, limit - 1, cs)
    ensures Derives(format, Written(format, c) + more, limit, [c] + cs)
  {
    hide Written, WellFormed, Still;
    assert ([c] + cs)[1..] == cs;
  }

  lemma DerivesNothing(format: Format, limit: nat)
    requires format.Webp?
    ensures Derives(format, [], limit, [])
  {
  }

  lemma DerivesEnd(format: Format, c: Chunk, limit: int)
    requires WellFormed(format, c) && Still(format, c) && EndChunk(format, c) && c.payload == [] && limit >= 1
    ensures Derives(format, Written(format, c), limit, [c])
  {
    hide Written, WellFormed, Still;
    assert Body(format, [c]) == Written(format, c) + Body(format, []);
  }

  lemma DerivesHead(format: Format, rest: Bytes, limit: int, cs: seq<Chunk>)
    requires Derives(format, rest, limit, cs) && cs != []
    ensures WellFormed(format, cs[0]) && Still(format, cs[0]) && limit >= 1
    ensures rest == Written(format, cs[0]) + Body(format, cs[1..])
    ensures EndChunk(format, cs[0]) ==> cs[1..] == [] && cs[0].payload == []
    ensures !EndChunk(format, cs[0]) ==> Derives(format, Body(format, cs[1..]), limit - 1, cs[1..])
  {
    hide Written, WellFormed, Still;
    if |cs| == 1 {
      assert cs[1..] == [];
    }
  }

  /** What the walk accepts has a derivation. */
  lemma {:induction false} Sound(format: Format, rest: Bytes, chunks: nat) returns (cs: seq<Chunk>)
    requires Walk(format, rest, chunks) && chunks <= CHUNK_LIMIT
    ensures Derives(format, rest, CHUNK_LIMIT - chunks, cs)
    decreases |rest|
  {
    hide Peek, Written, WellFormed, Still, Derives, EndChunk, Walk, Body;
    WalkOpens(format, rest, chunks);
    if rest == [] {
      DerivesNothing(format, CHUNK_LIMIT - chunks);
      return [];
    }
    var c := PeekSound(format, rest);
    match Peek(format, rest)
    case Finish =>
      DerivesEnd(format, c, CHUNK_LIMIT - chunks);
      cs := [c];
    case Continue(end) =>
      var tail := Sound(format, rest[end..], chunks + 1);
      DerivesCons(format, c, rest[end..], CHUNK_LIMIT - chunks, tail);
      cs := [c] + tail;
  }

  /** What has a derivation the walk accepts. */
  lemma {:induction false} Complete(format: Format, rest: Bytes, chunks: nat, cs: seq<Chunk>)
    requires chunks <= CHUNK_LIMIT && Derives(format, rest, CHUNK_LIMIT - chunks, cs)
    ensures Walk(format, rest, chunks)
    decreases |cs|
  {
    hide Walk, Peek;
    WalkOpens(format, rest, chunks);
    if cs == [] {
    } else {
      DerivesHead(format, rest, CHUNK_LIMIT - chunks, cs);
      var c, more := cs[0], Body(format, cs[1..]);
      hide Derives, Written, WellFormed, Still, EndChunk, Body;
      PeekComplete(format, c, more);
      if EndChunk(format, c) {
        assert more == [];
      } else {
        assert rest[|Written(format, c)|..] == more;
        Complete(format, more, chunks + 1, cs[1..]);
      }
    }
  }

  /** The walk accepts exactly the files of the grammar. */
  lemma WalkIffStatic(format: Format, file: Bytes)
    requires |file| >= Start(format)
    ensures Walk(format, file[Start(format)..], 0) <==> exists cs :: IsStatic(format, file, cs)
  {
    hide Derives, Walk;
    var rest := file[Start(format)..];
    if Walk(format, rest, 0) {
      var cs := Sound(format, rest, 0);
      assert IsStatic(format, file, cs);
    }
    forall cs | IsStatic(format, file, cs)
      ensures Walk(format, rest, 0)
    {
      Complete(format, rest, 0, cs);
    }
  }

  lemma TooShort(format: Format, file: Bytes)
    requires |file| < Start(format)
    ensures !exists cs :: IsStatic(format, file, cs)
  {
  }

  /** One turn of the loop; every read lies inside the file. */
  method Turn(format: Format, file: Bytes, offset: nat) returns (verdict: Verdict)
    requires offset < |file|
    ensures match Peek(format, file[offset..])
      case Continue(n) => verdict == Continue(offset + n)
      case v => verdict == v
  {
    hide Number;
    ghost var rest := file[offset..];
    if |file| - offset < (if format.Png? then 12 else 8) {
      return Refuse;
    }
    var header := file[offset..offset + 8];
    assert header == rest[..8];
    assert header[..4] == rest[..4] && header[4..8] == rest[4..8];
    var length := if format.Png? then Number(header[..4]) else Number(Reversed(header[4..8]));
    var kind := if format.Png? then header[4..8] else header[..4];
    var end := offset + 8 + length + (if format.Png? then 4 else length % 2);
    if end > |file| || Animated(format, kind) {
      return Refuse;
    }
    if format.Webp? && kind == VP8X {
      if length < 10 || AnimationFlag(file[offset + 8]) {
        return Refuse;
      }
    }
    if format.Png? && kind == IEND {
      return if length == 0 && end == |file| then Finish else Refuse;
    }
    verdict := Continue(end);
  }

  /** The loop over the whole file, whose size has been checked to be the declared one. */
  method AssertStaticContainer(format: Format, file: Bytes) returns (accepted: bool)
    ensures accepted <==> exists cs :: IsStatic(format, file, cs)
  {
    hide IsStatic, Peek, Walk;
    if |file| < Start(format) {
      TooShort(format, file);
      return false;
    }
    WalkIffStatic(format, file);
    var offset, chunks: nat := Start(format), 0;
    while offset < |file|
      invariant Start(format) <= offset <= |file|
      invariant Walk(format, file[Start(format)..], 0) == Walk(format, file[offset..], chunks)
    {
      WalkOpens(format, file[offset..], chunks);
      chunks := chunks + 1;
      if chunks > CHUNK_LIMIT {
        return false;
      }
      var verdict := Turn(format, file, offset);
      match verdict {
        case Refuse => return false;
        case Finish => return true;
        case Continue(end) =>
          assert file[offset..][end - offset..] == file[end..];
          offset := end;
      }
    }
    assert file[offset..] == [];
    WalkOpens(format, [], chunks);
    accepted := format.Webp?;
  }
}
