/** A decoder response: a frame and then payloads of the lengths it declares, up to the end of the stream. */
module DecoderResponse {
  import opened DecoderProtocol
  import opened Octets
  import opened Sequences
  import opened Wrappers

  datatype Error = Protocol | Truncated | Closed | TrailingBytes | Aborted

  datatype Result<+T> = Ok(value: T) | Err(error: Error)

  const CHUNK: nat := 65536

  /** What a reader reports when the caller's signal fires: between two reads or while it waits. */
  const STOPPED: set<Error> := {Aborted, Closed}

  // ---- Reading a socket ----

  /** A paused socket: bytes that have arrived, pieces still to arrive, and whether the peer's end of file or a
      failure comes after them.  `abortable` says whether the caller's signal may fire. */
  class Stream {
    var buffered: Bytes
    var coming: seq<Bytes>
    const ended: bool
    const abortable: bool

    constructor (buffered: Bytes, coming: seq<Bytes>, ended: bool, abortable: bool)
      ensures this.buffered == buffered && this.coming == coming && this.ended == ended && this.abortable == abortable
    {
      this.buffered, this.coming, this.ended, this.abortable := buffered, coming, ended, abortable;
    }

    ghost function Ahead(): Bytes
      reads this
    {
      buffered + Concat(coming)
    }

    /** Any number of pieces arrive while the reader is busy elsewhere. */
    method Arrive(atLeast: nat)
      requires atLeast <= |coming|
      modifies this
      ensures Ahead() == old(Ahead()) && |coming| <= old(|coming|) - atLeast
    {
      var k: nat :| atLeast <= k <= |coming|;
      if k > 0 {
        ConcatFirst(coming, k);
        buffered, coming := buffered + Concat(coming[..k]), coming[k..];
      }
    }

    /** Some of the next bytes, at most `maximum`; nothing only at the end of the stream.  A signal that fires while
        the reader waits is reported like a closed socket. */
    method NextBytes(maximum: nat) returns (r: Result<Option<Bytes>>)
      requires maximum > 0
      modifies this
      ensures r.Ok? && r.value.Some? ==>
        && 0 < |r.value.value| <= maximum
        && old(Ahead()) == r.value.value + Ahead()
      ensures r.Ok? && r.value.None? ==> old(Ahead()) == [] == Ahead() && ended
      ensures r.Err? ==> (r.error.Closed? && !ended && old(Ahead()) == []) || (r.error in STOPPED && abortable)
    {
      while true
        invariant Ahead() == old(Ahead())
        decreases |coming|
      {
        var fired: bool := *;
        if abortable && fired {
          return Err(Aborted);
        }
        Arrive(0);
        if |buffered| > 0 {
          var n := if maximum < |buffered| then maximum else |buffered|;
          var chunk := buffered[..n];
          buffered := buffered[n..];
          return Ok(Some(chunk));
        }
        if coming == [] {
          return if ended then Ok(None) else Err(Closed);
        }
        fired := *;
        if abortable && fired {
          return Err(Closed);
        }
        Arrive(1);
      }
    }

    /** One payload, in chunks of at most 64 KiB; never a byte more than its length. */
    method Payload(byteLength: nat) returns (r: Result<Bytes>)
      modifies this
      ensures r.Ok? ==> |r.value| == byteLength && old(Ahead()) == r.value + Ahead()
      ensures r.Err? ==>
        || (r.error == (if ended then Truncated else Closed) && |old(Ahead())| < byteLength)
        || (r.error in STOPPED && abortable)
    {
      var remaining := byteLength;
      var payload: Bytes := [];
      while remaining > 0
        invariant remaining >= 0 && |payload| + remaining == byteLength
        invariant old(Ahead()) == payload + Ahead()
      {
        ghost var before := Ahead();
        var chunk := NextBytes(if remaining < CHUNK then remaining else CHUNK);
        if chunk.Err? {
          return Err(chunk.error);
        }
        if chunk.value.None? {
          return Err(Truncated);
        }
        assert payload + before == (payload + chunk.value.value) + Ahead();
        remaining := remaining - |chunk.value.value|;
        payload := payload + chunk.value.value;
      }
      r := Ok(payload);
    }

    method AssertEnd() returns (r: Result<()>)
      modifies this
      ensures r.Ok? ==> old(Ahead()) == [] && ended
      ensures r.Err? ==>
        || (r.error.TrailingBytes? && old(Ahead()) != [])
        || (r.error.Closed? && !ended && old(Ahead()) == [])
        || (r.error in STOPPED && abortable)
    {
      var chunk := NextBytes(1);
      r := if chunk.Err? then Err(chunk.error) else if chunk.value.Some? then Err(TrailingBytes) else Ok(());
    }
  }

  // ---- What a stream decodes to ----

  /** Takes the payloads of the given lengths off `rest`; nothing may be left over or follow. */
  function Cut(rest: Bytes, lengths: seq<nat>, ended: bool): Result<seq<Bytes>> {
    if lengths == [] then
      if rest != [] then Err(TrailingBytes) else if ended then Ok([]) else Err(Closed)
    else if |rest| < lengths[0] then Err(if ended then Truncated else Closed)
    else match Cut(rest[lengths[0]..], lengths[1..], ended)
      case Ok(payloads) => Ok([rest[..lengths[0]]] + payloads)
      case Err(e) => Err(e)
  }

  /** A manifest that is not acceptable declares no lengths. */
  function Decode<V(==)>(codec: Codec<V>, manifest: V -> Option<seq<nat>>, stream: Bytes, ended: bool): Result<(V, seq<Bytes>)> {
    match Parse(codec, stream)
    case Resolved(value, rest) =>
      (match manifest(value)
       case Some(lengths) =>
         (match Cut(rest, lengths, ended) case Ok(payloads) => Ok((value, payloads)) case Err(e) => Err(e))
       case None => Err(Protocol))
    case _ => Err(Protocol)
  }

  ghost predicate HaveLengths(payloads: seq<Bytes>, lengths: seq<nat>) {
    |payloads| == |lengths| && forall i :: 0 <= i < |payloads| ==> |payloads[i]| == lengths[i]
  }

  lemma {:induction false} CutIffConcat(rest: Bytes, lengths: seq<nat>, ended: bool, payloads: seq<Bytes>)
    ensures Cut(rest, lengths, ended) == Ok(payloads) <==> ended && rest == Concat(payloads) && HaveLengths(payloads, lengths)
    decreases |lengths|
  {
    if lengths == [] {
    } else if payloads == [] {
    } else {
      var n := lengths[0];
      if |rest| >= n {
        CutIffConcat(rest[n..], lengths[1..], ended, payloads[1..]);
        assert rest == rest[..n] + rest[n..];
        assert payloads == [payloads[0]] + payloads[1..];
        if rest == Concat(payloads) && HaveLengths(payloads, lengths) {
          assert rest[..n] == payloads[0] && rest[n..] == Concat(payloads[1..]);
          assert HaveLengths(payloads[1..], lengths[1..]);
        }
        if Cut(rest, lengths, ended) == Ok(payloads) {
          assert HaveLengths(payloads[1..], lengths[1..]);
          assert forall i :: 0 < i < |payloads| ==> payloads[i] == payloads[1..][i - 1] && lengths[i] == lengths[1..][i - 1];
        }
      }
    }
  }

  /** A response is accepted exactly when it is complete, ends there, and is the frame of its manifest followed
      by payloads of the declared lengths. */
  lemma AcceptedIffExact<V(!new)>(codec: Codec<V>, manifest: V -> Option<seq<nat>>, stream: Bytes, ended: bool, value: V, payloads: seq<Bytes>)
    requires Lawful(codec)
    ensures Decode(codec, manifest, stream, ended) == Ok((value, payloads)) <==>
      && ended
      && |codec.enc(value)| >= HEADER_MIN && Frame(codec, value).Some?
      && manifest(value).Some? && HaveLengths(payloads, manifest(value).value)
      && stream == Frame(codec, value).value + Concat(payloads)
  {
    hide Parse, Frame;
    ResolvedIffFramed(codec, stream, value, Concat(payloads));
    if manifest(value).Some? {
      CutIffConcat(Concat(payloads), manifest(value).value, ended, payloads);
    }
    if Decode(codec, manifest, stream, ended) == Ok((value, payloads)) {
      CutIffConcat(Parse(codec, stream).unread, manifest(value).value, ended, payloads);
    }
  }

  /** No accepted response is the beginning of another: what is cut short or goes on is rejected. */
  lemma PrefixFree<V(!new)>(codec: Codec<V>, manifest: V -> Option<seq<nat>>, stream: Bytes, more: Bytes, ended: bool)
    requires Lawful(codec) && more != []
    ensures Decode(codec, manifest, stream, true).Ok? ==> Decode(codec, manifest, stream + more, ended).Err?
    ensures Decode(codec, manifest, stream + more, ended).Ok? ==> Decode(codec, manifest, stream, true).Err?
  {
    hide Decode, Frame;
    if Decode(codec, manifest, stream, true).Ok? && Decode(codec, manifest, stream + more, ended).Ok? {
      var (v, ps) := Decode(codec, manifest, stream, true).value;
      var (w, qs) := Decode(codec, manifest, stream + more, ended).value;
      AcceptedIffExact(codec, manifest, stream, true, v, ps);
      AcceptedIffExact(codec, manifest, stream + more, ended, w, qs);
      ResolvedIffFramed(codec, stream, v, Concat(ps));
      ResolvedIffFramed(codec, stream + more, w, Concat(qs));
      VerdictStands(codec, stream, more);
      assert v == w;
      SameLengths(ps, qs);
      assert false;
    }
  }

  lemma {:induction false} SameLengths(ps: seq<Bytes>, qs: seq<Bytes>)
    requires |ps| == |qs| && forall i :: 0 <= i < |ps| ==> |ps[i]| == |qs[i]|
    ensures |Concat(ps)| == |Concat(qs)|
  {
    if ps == [] {
    } else {
      SameLengths(ps[1..], qs[1..]);
    }
  }

  // ---- The server ----

  /** The chunks of one output file, checked against its declared length before each is passed on. */
  method SendFile(source: seq<Bytes>, declared: nat) returns (sent: seq<Bytes>, finished: bool)
    ensures finished <==> |Concat(source)| == declared
    ensures sent <= source && |Concat(sent)| <= declared
    ensures finished ==> sent == source
  {
    sent := [];
    var bytes := 0;
    for k := 0 to |source|
      invariant sent == source[..k] && bytes == |Concat(sent)| <= declared
    {
      ConcatOne(source[..k], source[k]);
      assert source[..k] + [source[k]] == source[..k + 1];
      ConcatAppend(source[..k + 1], source[k + 1..]);
      assert source[..k + 1] + source[k + 1..] == source;
      bytes := bytes + |source[k]|;
      if bytes > declared {
        return sent, false;
      }
      sent := sent + [source[k]];
    }
    assert sent == source;
    finished := bytes == declared;
  }

  function Contents(files: seq<seq<Bytes>>): (c: seq<Bytes>)
    ensures |c| == |files|
  {
    seq(|files|, i requires 0 <= i < |files| => Concat(files[i]))
  }

  lemma ContentsStep(files: seq<seq<Bytes>>, k: nat)
    requires k < |files|
    ensures Concat(Contents(files[..k + 1])) == Concat(Contents(files[..k])) + Concat(files[k])
  {
    assert Contents(files[..k + 1]) == Contents(files[..k]) + [Concat(files[k])];
    ConcatOne(Contents(files[..k]), Concat(files[k]));
  }

  lemma ContentsPrefix(files: seq<seq<Bytes>>, k: nat, part: Bytes)
    requires k < |files| && part <= Concat(files[k])
    ensures Concat(Contents(files[..k])) + part <= Concat(Contents(files))
  {
    ContentsStep(files, k);
    assert Contents(files) == Contents(files[..k + 1]) + Contents(files[k + 1..]);
    ConcatAppend(Contents(files[..k + 1]), Contents(files[k + 1..]));
  }

  lemma ConcatMonotone(part: seq<Bytes>, whole: seq<Bytes>)
    requires part <= whole
    ensures Concat(part) <= Concat(whole)
  {
    ConcatAppend(part, whole[|part|..]);
    assert part + whole[|part|..] == whole;
  }

  /** The response generator.  It finishes exactly when every file has its declared length; whatever it has sent
      by then is a beginning of the complete response. */
  method Respond<V>(codec: Codec<V>, metadata: V, files: seq<seq<Bytes>>, declared: seq<nat>) returns (sent: seq<Bytes>, finished: bool)
    requires |files| == |declared|
    ensures finished <==> Frame(codec, metadata).Some? && HaveLengths(Contents(files), declared)
    ensures Frame(codec, metadata).None? ==> sent == []
    ensures Frame(codec, metadata).Some? ==> Concat(sent) <= Frame(codec, metadata).value + Concat(Contents(files))
    ensures finished ==> Concat(sent) == Frame(codec, metadata).value + Concat(Contents(files))
  {
    hide Frame, Concat;
    var header := Frame(codec, metadata);
    if header.None? {
      return [], false;
    }
    sent := [header.value];
    assert Concat(sent) == header.value + Concat(Contents(files[..0])) by { ConcatOf(header.value, Contents(files[..0])); }
    for k := 0 to |files|
      invariant Concat(sent) == header.value + Concat(Contents(files[..k]))
      invariant forall i :: 0 <= i < k ==> |Concat(files[i])| == declared[i]
    {
      var part, ok := SendFile(files[k], declared[k]);
      ConcatAppend(sent, part);
      ConcatMonotone(part, files[k]);
      ContentsPrefix(files, k, Concat(part));
      sent := sent + part;
      assert Concat(sent) == header.value + (Concat(Contents(files[..k])) + Concat(part));
      if !ok {
        assert |Contents(files)[k]| != declared[k];
        return sent, false;
      }
      ContentsStep(files, k);
    }
    assert files[..|files|] == files;
    finished := true;
  }

  lemma ConcatOf(first: Bytes, none: seq<Bytes>)
    requires none == []
    ensures Concat([first]) == first + Concat(none)
  {
  }

  /** What a finished response carries is what the client gets; an unfinished one, whose socket is destroyed, is
      never accepted, even when all its bytes got through. */
  lemma ResponseDecodes<V(!new)>(codec: Codec<V>, manifest: V -> Option<seq<nat>>, metadata: V, files: seq<seq<Bytes>>, sent: seq<Bytes>)
    requires Lawful(codec) && Frame(codec, metadata).Some? && |codec.enc(metadata)| >= HEADER_MIN
    requires manifest(metadata).Some? && HaveLengths(Contents(files), manifest(metadata).value)
    requires Concat(sent) == Frame(codec, metadata).value + Concat(Contents(files))
    ensures Decode(codec, manifest, Concat(sent), true) == Ok((metadata, Contents(files)))
    ensures Decode(codec, manifest, Concat(sent), false).Err?
  {
    AcceptedIffExact(codec, manifest, Concat(sent), true, metadata, Contents(files));
    var cut := Decode(codec, manifest, Concat(sent), false);
    if cut.Ok? {
      AcceptedIffExact(codec, manifest, Concat(sent), false, cut.value.0, cut.value.1);
    }
  }

  // ---- The client ----

  function AsReports(pieces: seq<Bytes>): seq<Report> {
    seq(|pieces|, i requires 0 <= i < |pieces| => Data(pieces[i])) + [Failure]
  }

  lemma {:induction false} HeardPieces(pieces: seq<Bytes>)
    ensures Heard(AsReports(pieces)) == Concat(pieces)
  {
    if pieces == [] {
    } else {
      HeardPieces(pieces[1..]);
      assert AsReports(pieces)[1..] == AsReports(pieces[1..]);
    }
  }

  /** Reads a response from a socket on which it arrives in any pieces: the result is that of the bytes.  The caller's
      signal may fire at any time; while the header is read that is a protocol error, later on an abort or a
      closed socket. */
  method Receive<V(==)>(codec: Codec<V>, manifest: V -> Option<seq<nat>>, pieces: seq<Bytes>, ended: bool, abortable: bool)
    returns (r: Result<(V, seq<Bytes>)>)
    ensures r == Decode(codec, manifest, Concat(pieces), ended) || (abortable && r.Err? && (r.error.Protocol? || r.error in STOPPED))
    ensures r.Ok? ==> r == Decode(codec, manifest, Concat(pieces), ended)
  {
    hide Parse, Heard, Concat, WithMore;
    var fires: nat :| fires <= |pieces| && (!abortable ==> fires == |pieces|);
    var heard := pieces[..fires];
    var reports := AsReports(heard);
    var promise, used := ReadFrame(codec, false, reports);
    HeardPieces(heard);
    assert Fails(reports) by { assert reports[fires].Failure?; }
    assert promise.Resolved? <==> Parse(codec, Concat(heard)).Resolved? by { KindStands(promise, Heard(reports[used..])); }
    if !promise.Resolved? {
      assert fires == |pieces| ==> heard == pieces;
      return Err(Protocol);
    }
    var coming := AfterHeader(codec, pieces, fires, promise, used);
    var lengths := manifest(promise.value);
    if lengths.None? {
      return Err(Protocol);
    }
    var stream := new Stream(promise.unread, coming, ended, abortable);
    var payloads := Payloads(stream, lengths.value);
    var fired: bool := *;
    if payloads.Ok? && abortable && fired {
      return Err(Aborted);
    }
    r := if payloads.Ok? then Ok((promise.value, payloads.value)) else Err(payloads.error);
  }

  /** The pieces behind the header, read while the first `fires` pieces had come. */
  method AfterHeader<V(==)>(codec: Codec<V>, pieces: seq<Bytes>, fires: nat, promise: Promise<V>, used: nat) returns (coming: seq<Bytes>)
    requires fires <= |pieces| && used <= fires + 1 && promise.Resolved?
    requires WithMore(promise, Heard(AsReports(pieces[..fires])[used..])) == Parse(codec, Concat(pieces[..fires]))
    ensures Parse(codec, Concat(pieces)) == Resolved(promise.value, promise.unread + Concat(coming))
  {
    hide Parse, Heard, Concat, WithMore;
    coming := if used <= fires then pieces[used..] else pieces[fires..];
    Remaining(pieces[..fires], used);
    KindStands(promise, Heard(AsReports(pieces[..fires])[used..]));
    ConcatFirst(pieces, fires);
    VerdictStands(codec, Concat(pieces[..fires]), Concat(pieces[fires..]));
    KindStands(Parse(codec, Concat(pieces[..fires])), Concat(pieces[fires..]));
    if used <= fires {
      ConcatAppend(pieces[..fires][used..], pieces[fires..]);
      assert pieces[..fires][used..] + pieces[fires..] == pieces[used..];
    } else {
      NothingConcat();
    }
  }

  lemma NothingConcat()
    ensures Concat<Byte>([]) == []
  {
  }

  lemma KindStands<V>(promise: Promise<V>, more: Bytes)
    ensures promise.Resolved? <==> WithMore(promise, more).Resolved?
    ensures promise.Resolved? ==> WithMore(promise, more) == Resolved(promise.value, promise.unread + more)
  {
  }

  lemma Remaining(pieces: seq<Bytes>, used: nat)
    requires used <= |pieces| + 1
    ensures Heard(AsReports(pieces)[used..]) == if used <= |pieces| then Concat(pieces[used..]) else Concat([])
  {
    if used <= |pieces| {
      HeardPieces(pieces[used..]);
      assert AsReports(pieces)[used..] == AsReports(pieces[used..]);
    }
  }

  /** One payload after another and then the end. */
  method Payloads(stream: Stream, lengths: seq<nat>) returns (r: Result<seq<Bytes>>)
    modifies stream
    ensures r == Cut(old(stream.Ahead()), lengths, stream.ended) || (r.Err? && r.error in STOPPED && stream.abortable)
  {
    var outputs: seq<Bytes> := [];
    ghost var whole := Cut(stream.Ahead(), lengths, stream.ended);
    assert lengths[0..] == lengths && Prepend([], whole) == whole by {
      assert whole.Ok? ==> [] + whole.value == whole.value;
    }
    for k := 0 to |lengths|
      invariant Prepend(outputs, Cut(stream.Ahead(), lengths[k..], stream.ended)) == whole
    {
      ghost var ahead := stream.Ahead();
      var payload := stream.Payload(lengths[k]);
      CutStep(ahead, lengths, k, stream.ended);
      if payload.Err? {
        return Err(payload.error);
      }
      assert ahead[..lengths[k]] == payload.value && ahead[lengths[k]..] == stream.Ahead();
      PrependStep(outputs, payload.value, Cut(stream.Ahead(), lengths[k + 1..], stream.ended));
      outputs := outputs + [payload.value];
    }
    assert lengths[|lengths|..] == [] && outputs + [] == outputs;
    var end := stream.AssertEnd();
    r := if end.Ok? then Ok(outputs) else Err(end.error);
  }

  function Prepend(first: seq<Bytes>, r: Result<seq<Bytes>>): Result<seq<Bytes>> {
    match r case Ok(rest) => Ok(first + rest) case Err(e) => Err(e)
  }

  lemma CutStep(rest: Bytes, lengths: seq<nat>, k: nat, ended: bool)
    requires k < |lengths|
    ensures Cut(rest, lengths[k..], ended) ==
      if |rest| < lengths[k] then Err(if ended then Truncated else Closed)
      else Prepend([rest[..lengths[k]]], Cut(rest[lengths[k]..], lengths[k + 1..], ended))
  {
    assert lengths[k..][1..] == lengths[k + 1..];
  }

  lemma PrependStep(first: seq<Bytes>, payload: Bytes, r: Result<seq<Bytes>>)
    ensures Prepend(first, Prepend([payload], r)) == Prepend(first + [payload], r)
  {
    if r.Ok? {
      assert first + ([payload] + r.value) == (first + [payload]) + r.value;
    }
  }
}
