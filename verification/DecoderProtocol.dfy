/** The decoder's wire protocol: a length-prefixed canonical header and the incremental reader that undoes it. */
module DecoderProtocol {
  import opened Octets
  import opened Wrappers

  /** The JSON codec: what it writes, it reads back. */
  datatype Codec<!V> = Codec(enc: V -> Bytes, dec: Bytes -> Option<V>)

  ghost predicate Lawful<V(!new)>(codec: Codec<V>) {
    forall v :: codec.dec(codec.enc(v)) == Some(v)
  }

  const HEADER_MAX: nat := 1024
  const HEADER_MIN: nat := 2

  // ---- Big-endian lengths ----

  function Size(n: nat): (b: Bytes)
    requires n < 0x1_0000_0000
    ensures |b| == 4
  {
    [n / 0x100_0000, n / 0x1_0000 % 256, n / 256 % 256, n % 256]
  }

  function Number(b: Bytes): nat
    requires |b| == 4
  {
    ((b[0] as int * 256 + b[1]) * 256 + b[2]) * 256 + b[3]
  }

  lemma NumberOfSize(n: nat)
    requires n < 0x1_0000_0000
    ensures Number(Size(n)) == n
  {
    assert n / 0x100_0000 == n / 256 / 256 / 256 && n / 0x1_0000 == n / 256 / 256;
  }

  lemma SizeOfNumber(b: Bytes)
    requires |b| == 4
    ensures Number(b) < 0x1_0000_0000 && Size(Number(b)) == b
  {
    var n := Number(b);
    var high: int := (b[0] as int * 256 + b[1]) * 256 + b[2];
    assert n == high * 256 + b[3];
    assert n / 256 == high && n % 256 == b[3];
    assert high / 256 == b[0] as int * 256 + b[1] && high % 256 == b[2];
    assert n / 0x1_0000 == high / 256 && n / 0x100_0000 == high / 256 / 256;
    assert Size(n) == [b[0], b[1], b[2], b[3]] == b;
  }

  // ---- Frames ----

  /** `None` is the error for a header that is too long. */
  function Frame<V>(codec: Codec<V>, value: V): (f: Option<Bytes>)
    ensures f.Some? <==> |codec.enc(value)| <= HEADER_MAX
    ensures f.Some? ==> |f.value| == 4 + |codec.enc(value)|
  {
    var data := codec.enc(value);
    if |data| > HEADER_MAX then None else Some(Size(|data|) + data)
  }

  /** The promise of a read.  A rejection either destroys the socket or leaves `unread` on it. */
  datatype Promise<+V> =
    | Pending
    | Rejected(destroyed: bool, unread: Bytes)
    | Resolved(value: V, unread: Bytes)

  /** What the bytes of a stream amount to, whatever pieces they came in. */
  function Parse<V(==)>(codec: Codec<V>, stream: Bytes): Promise<V> {
    if |stream| < 4 then Pending
    else
      var length := Number(stream[..4]);
      if length < HEADER_MIN || length > HEADER_MAX then Rejected(true, [])
      else if |stream| < 4 + length then Pending
      else Canonical(codec, stream[4..4 + length], stream[4 + length..])
  }

  /** Only the codec's own writing of a value is accepted. */
  function Canonical<V(==)>(codec: Codec<V>, original: Bytes, rest: Bytes): (p: Promise<V>)
    ensures !p.Pending?
  {
    match codec.dec(original)
    case Some(value) => if codec.enc(value) == original then Resolved(value, rest) else Rejected(false, rest)
    case None => Rejected(false, rest)
  }

  /** More bytes on a socket that was not destroyed. */
  function WithMore<V>(p: Promise<V>, more: Bytes): Promise<V> {
    match p
    case Pending => p
    case Rejected(destroyed, unread) => if destroyed then p else Rejected(false, unread + more)
    case Resolved(value, unread) => Resolved(value, unread + more)
  }

  /** A verdict never depends on what follows. */
  lemma VerdictStands<V>(codec: Codec<V>, stream: Bytes, more: Bytes)
    requires !Parse(codec, stream).Pending?
    ensures Parse(codec, stream + more) == WithMore(Parse(codec, stream), more) && !Parse(codec, stream + more).Pending?
  {
    var all := stream + more;
    assert all[..4] == stream[..4];
    var length := Number(stream[..4]);
    if HEADER_MIN <= length <= HEADER_MAX {
      assert all[4..4 + length] == stream[4..4 + length];
      assert all[4 + length..] == stream[4 + length..] + more;
    }
  }

  /** What is accepted is exactly a frame: of values that encode to two bytes or more, and nothing else. */
  lemma ResolvedIffFramed<V(!new)>(codec: Codec<V>, stream: Bytes, value: V, rest: Bytes)
    requires Lawful(codec)
    ensures Parse(codec, stream) == Resolved(value, rest)
       <==> |codec.enc(value)| >= HEADER_MIN && Frame(codec, value).Some? && stream == Frame(codec, value).value + rest
  {
    var data := codec.enc(value);
    assert codec.dec(codec.enc(value)) == Some(value);
    if Frame(codec, value).Some? && |data| >= HEADER_MIN && stream == Frame(codec, value).value + rest {
      NumberOfSize(|data|);
      assert stream[..4] == Size(|data|);
      assert stream[4..4 + |data|] == data && stream[4 + |data|..] == rest;
    }
    if Parse(codec, stream) == Resolved(value, rest) {
      SizeOfNumber(stream[..4]);
      var length := Number(stream[..4]);
      assert stream == stream[..4] + stream[4..4 + length] + stream[4 + length..];
    }
  }

  /** The reader undoes the writer exactly for encodings of two bytes or more. */
  lemma RoundTrip<V(!new)>(codec: Codec<V>, value: V, rest: Bytes)
    requires Lawful(codec) && Frame(codec, value).Some?
    ensures Parse(codec, Frame(codec, value).value + rest) == Resolved(value, rest) <==> |codec.enc(value)| >= HEADER_MIN
    ensures |codec.enc(value)| < HEADER_MIN ==> Parse(codec, Frame(codec, value).value + rest) == Rejected(true, [])
  {
    var stream, data := Frame(codec, value).value + rest, codec.enc(value);
    ResolvedIffFramed(codec, stream, value, rest);
    NumberOfSize(|data|);
    assert stream[..4] == Size(|data|);
  }

  /** A value written as one digit is framed without complaint and then refused. */
  lemma DigitIsRefused(codec: Codec<nat>)
    requires Lawful(codec) && codec.enc(7) == [55]
    ensures Frame(codec, 7) == Some([0, 0, 0, 1, 55])
    ensures Parse(codec, [0, 0, 0, 1, 55]) == Rejected(true, [])
  {
    RoundTrip(codec, 7, []);
    assert Size(1) + [55] == [0, 0, 0, 1, 55];
    assert [0, 0, 0, 1, 55] + [] == [0, 0, 0, 1, 55];
  }

  // ---- The incremental reader ----

  /** What a socket reports to its listeners; `Failure` is an end, a close, an error or an abort. */
  datatype Report = Data(chunk: Bytes) | Failure

  /** The data before the first failure. */
  function Heard(reports: seq<Report>): Bytes {
    if reports == [] || reports[0].Failure? then [] else reports[0].chunk + Heard(reports[1..])
  }

  predicate Fails(reports: seq<Report>) {
    exists i :: 0 <= i < |reports| && reports[i].Failure?
  }

  class FrameReader<V(==)> {
    const codec: Codec<V>
    var header: Bytes
    var promise: Promise<V>
    ghost var heard: Bytes

    ghost predicate Valid()
      reads this
    {
      |header| <= 4 + HEADER_MAX && (promise.Pending? ==> header == heard && Parse(codec, heard).Pending?)
    }

    constructor (codec: Codec<V>)
      ensures Valid() && promise.Pending? && heard == [] && this.codec == codec
    {
      this.codec := codec;
      header, heard := [], [];
      promise := Pending;
    }

    /** Takes from the chunk what the header still wants, at most; the rest goes back to the socket. */
    method OnData(chunk: Bytes)
      requires Valid() && promise.Pending?
      modifies this
      ensures Valid() && heard == old(heard) + chunk
      ensures promise == Parse(codec, heard)
    {
      hide Parse, Number, Canonical;
      heard := heard + chunk;
      ghost var before := header;
      var offset := 0;
      while offset < |chunk|
        invariant 0 <= offset <= |chunk| && promise.Pending?
        invariant header == before + chunk[..offset] && heard == before + chunk
        invariant |header| <= 4 + HEADER_MAX && Parse(codec, header).Pending?
        modifies `header, `promise
      {
        WhilePending(codec, header);
        var wanted := if |header| < 4 then 4 else 4 + Number(header[..4]);
        var count := if wanted - |header| < |chunk| - offset then wanted - |header| else |chunk| - offset;
        TakeMore(before, header, chunk, offset, count);
        header := header + chunk[offset..offset + count];
        offset := offset + count;
        WhenComplete(codec, header, chunk[offset..]);
        if |header| >= 4 {
          var length := Number(header[..4]);
          if length < HEADER_MIN || length > HEADER_MAX {
            promise := Rejected(true, []);
            return;
          }
          if |header| == length + 4 {
            promise := Canonical(codec, header[4..], chunk[offset..]);
            return;
          }
        }
      }
      assert chunk[..offset] == chunk;
    }

    /** An end, a close, an error or an abort before the header is complete. */
    method OnFailure()
      requires Valid() && promise.Pending?
      modifies this`promise
      ensures Valid() && promise == Rejected(false, [])
    {
      promise := Rejected(false, []);
    }
  }

  lemma TakeMore(before: Bytes, header: Bytes, chunk: Bytes, offset: nat, count: nat)
    requires offset + count <= |chunk| && header == before + chunk[..offset]
    ensures var more := header + chunk[offset..offset + count];
      && more == before + chunk[..offset + count] && more + chunk[offset + count..] == before + chunk
      && (|header| >= 4 ==> more[..4] == header[..4])
  {
    assert chunk[..offset + count] == chunk[..offset] + chunk[offset..offset + count];
    assert chunk == chunk[..offset + count] + chunk[offset + count..];
  }

  lemma WhilePending<V>(codec: Codec<V>, header: Bytes)
    requires Parse(codec, header).Pending?
    ensures |header| >= 4 ==> HEADER_MIN <= Number(header[..4]) <= HEADER_MAX && |header| < 4 + Number(header[..4])
  {
  }

  lemma WhenComplete<V>(codec: Codec<V>, header: Bytes, more: Bytes)
    ensures |header| < 4 ==> Parse(codec, header).Pending?
    ensures |header| >= 4 ==>
      var length := Number(header[..4]);
      if length < HEADER_MIN || length > HEADER_MAX then Parse(codec, header + more) == Rejected(true, [])
      else if |header| == 4 + length then Parse(codec, header + more) == Canonical(codec, header[4..], more)
      else |header| < 4 + length ==> Parse(codec, header).Pending?
  {
    if !Parse(codec, header).Pending? {
      VerdictStands(codec, header, more);
      assert |header| == 4 + Number(header[..4]) ==> header[4..4 + Number(header[..4])] == header[4..];
    }
  }

  lemma HeardFrom(reports: seq<Report>, used: nat)
    requires used < |reports|
    ensures Heard(reports[used..]) == if reports[used].Failure? then [] else reports[used].chunk + Heard(reports[used + 1..])
  {
    assert reports[used..][1..] == reports[used + 1..];
  }

  /** Reads one frame from whatever the socket reports.  The verdict is that of the bytes alone: pieces do not
      matter, and what was not part of the frame is still there to be read, in its order. */
  method ReadFrame<V(==)>(codec: Codec<V>, gone: bool, reports: seq<Report>) returns (promise: Promise<V>, used: nat)
    ensures used <= |reports|
    ensures gone ==> promise == Rejected(false, []) && used == 0
    ensures !gone && Parse(codec, Heard(reports)).Pending? ==>
      promise == if Fails(reports) then Rejected(false, []) else Pending
    ensures !gone && !Parse(codec, Heard(reports)).Pending? ==>
      !promise.Pending? && WithMore(promise, Heard(reports[used..])) == Parse(codec, Heard(reports))
  {
    hide Parse, WithMore, Heard;
    used := 0;
    if gone {
      return Rejected(false, []), used;
    }
    var reader := new FrameReader(codec);
    assert reports[0..] == reports && reader.heard + Heard(reports) == Heard(reports);
    assert reader.promise == Parse(codec, reader.heard) by { PendingAtFirst(codec); }
    while used < |reports| && reader.promise.Pending?
      invariant used <= |reports| && reader.Valid() && (forall i :: 0 <= i < used ==> !reports[i].Failure?)
      invariant Heard(reports) == reader.heard + Heard(reports[used..])
      invariant reader.promise == Parse(codec, reader.heard) && reader.codec == codec
      decreases |reports| - used
    {
      HeardFrom(reports, used);
      if reports[used].Failure? {
        assert Heard(reports) == reader.heard;
        assert Fails(reports);
        reader.OnFailure();
        return reader.promise, used;
      }
      reader.OnData(reports[used].chunk);
      used := used + 1;
    }
    promise := reader.promise;
    if promise.Pending? {
      NothingLeft(reports[used..]);
      assert Heard(reports) == reader.heard;
    } else {
      VerdictStands(codec, reader.heard, Heard(reports[used..]));
    }
  }

  lemma PendingAtFirst<V>(codec: Codec<V>)
    ensures Parse(codec, []) == Pending
  {
  }

  lemma NothingLeft(reports: seq<Report>)
    ensures reports == [] ==> Heard(reports) == []
  {
  }
}
