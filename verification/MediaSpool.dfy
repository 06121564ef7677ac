/** The scratch-space ledger: uploads of any number of spoolers, interleaved at every await. */
module MediaSpool {
  import opened Wrappers

  const CAPACITY: nat := 268435456
  const FILE_LIMIT: nat := 52428800
  const CONCURRENCY: nat := 2

  datatype Code =
    | InvalidInput | CapacityExceeded | ConcurrencyExceeded | TooLarge | LengthMismatch | EmptyUpload
    | AbortedUpload | IdleTimeout | TotalTimeout | IoFailed | CleanupFailed

  // ---- One upload ----

  /** One cleanup promise: closing the file, removing the directory, settled. */
  datatype Attempt = Closing | Removing | Succeeded | Failed

  /** `cleanup` is the shared attempt, while there is one. */
  datatype Disposal = Disposal(attempts: seq<Attempt>, cleanup: Option<nat>, released: bool)

  datatype Disk = Disk(directory: bool, file: bool, scratch: nat)

  /** Where `receive` stands: its awaits, the cleanup of a failed upload, or over. */
  datatype Phase =
    | MakingDirectory | SettingMode | OpeningFile
    | Piping(rejected: Option<Code>)
    | Cleaning(thrown: Code)
    | Held
    | Gone(reported: Code)

  datatype Upload = Upload(spool: nat, maximum: nat, expected: Option<nat>, phase: Phase, failure: Option<Code>,
                           bytes: nat, disk: Disk, disposal: Disposal)

  datatype Event =
    | DirectoryMade(ok: bool) | ModeSet(ok: bool) | Opened(ok: bool)
    | Chunk(n: nat) | Written(n: nat) | PipeEnded(ok: bool)
    | Stop(code: Code)
    | Dispose
    | Closed(attempt: nat, ok: bool) | Removed(attempt: nat, ok: bool, left: nat) | Caught(attempt: nat)
    | Settled

  function Reservation(u: Upload): nat {
    match u.expected case Some(n) => n case None => u.maximum
  }

  /** Still counted as active: `receive` has neither returned nor thrown. */
  predicate Active(u: Upload) {
    !u.phase.Held? && !u.phase.Gone?
  }

  function Started(spool: nat, maximum: nat, expected: Option<nat>): Upload {
    Upload(spool, maximum, expected, MakingDirectory, None, 0, Disk(false, false, 0), Disposal([], None, false))
  }

  /** `cleanup ??= ...`: joins the attempt under way or starts one. */
  function Begin(d: Disposal): Disposal {
    if d.cleanup.Some? then d else d.(attempts := d.attempts + [Closing], cleanup := Some(|d.attempts|))
  }

  function Fail(u: Upload, code: Code): Upload {
    u.(phase := Cleaning(code), disposal := Begin(u.disposal))
  }

  function Unless(u: Upload, next: Phase): Upload {
    if u.failure.Some? then Fail(u, u.failure.value) else u.(phase := next)
  }

  /** What the transform makes of a chunk; nothing of a refused one is written. */
  function Refusal(u: Upload, n: nat): Option<Code> {
    if n > u.maximum - u.bytes then Some(TooLarge)
    else if u.expected.Some? && n > u.expected.value - u.bytes then Some(LengthMismatch)
    else None
  }

  function Ended(u: Upload): Upload {
    if u.failure.Some? then Fail(u, u.failure.value)
    else if u.bytes == 0 then Fail(u, EmptyUpload)
    else if u.expected.Some? && u.bytes != u.expected.value then Fail(u, LengthMismatch)
    else u.(phase := Held)
  }

  function SetAttempt(u: Upload, k: nat, a: Attempt): Upload
    requires k < |u.disposal.attempts|
  {
    u.(disposal := u.disposal.(attempts := u.disposal.attempts[k := a]))
  }

  /** A failed attempt forgets itself, and only itself. */
  function Forget(d: Disposal, k: nat): Disposal {
    if d.cleanup == Some(k) then d.(cleanup := None) else d
  }

  predicate At(u: Upload, k: nat, a: Attempt) {
    k < |u.disposal.attempts| && u.disposal.attempts[k] == a
  }

  /** What can happen next.  A pipeline that succeeds has written all it accepted and refused nothing; one that fails
      may have writes in flight until the file is closed. */
  predicate Enabled(u: Upload, e: Event) {
    match e
    case DirectoryMade(_) => u.phase.MakingDirectory?
    case ModeSet(_) => u.phase.SettingMode?
    case Opened(_) => u.phase.OpeningFile?
    case Chunk(_) => u.phase == Piping(None)
    case Written(n) => u.disk.file && u.disk.scratch + n <= u.bytes
    case PipeEnded(ok) => u.phase.Piping? && (ok ==> u.phase.rejected.None? && u.disk.scratch == u.bytes)
    case Stop(_) => Active(u)
    case Dispose => u.phase.Held?
    case Closed(k, ok) => At(u, k, Closing) && (!u.disk.file ==> ok)
    case Removed(k, ok, left) => At(u, k, Removing) && left <= u.disk.scratch && (!u.disk.directory ==> ok)
    case Caught(k) => At(u, k, Failed)
    case Settled => u.phase.Cleaning? && (At(u, 0, Succeeded) || At(u, 0, Failed))
  }

  function Next(u: Upload, e: Event): Upload
    requires Enabled(u, e)
  {
    match e
    case DirectoryMade(ok) =>
      if ok then u.(phase := SettingMode, disk := u.disk.(directory := true)) else Fail(u, IoFailed)
    case ModeSet(ok) => if ok then Unless(u, OpeningFile) else Fail(u, IoFailed)
    case Opened(ok) => if ok then Unless(u.(disk := u.disk.(file := true)), Piping(None)) else Fail(u, IoFailed)
    case Chunk(n) =>
      (match Refusal(u, n)
       case Some(code) => u.(phase := Piping(Some(code)))
       case None => u.(bytes := u.bytes + n))
    case Written(n) => u.(disk := u.disk.(scratch := u.disk.scratch + n))
    case PipeEnded(ok) =>
      if ok then Ended(u) else Fail(u, if u.phase.rejected.Some? then u.phase.rejected.value else IoFailed)
    case Stop(code) => if u.failure.Some? then u else u.(failure := Some(code))
    case Dispose => u.(disposal := Begin(u.disposal))
    case Closed(k, ok) =>
      if ok then SetAttempt(u.(disk := u.disk.(file := false)), k, Removing) else SetAttempt(u, k, Failed)
    case Removed(k, ok, left) =>
      if ok then
        var v := SetAttempt(u.(disk := Disk(false, u.disk.file, 0)), k, Succeeded);
        v.(disposal := v.disposal.(released := true))
      else SetAttempt(u.(disk := u.disk.(scratch := left)), k, Failed)
    case Caught(k) => u.(disposal := Forget(u.disposal, k))
    case Settled =>
      if At(u, 0, Succeeded) then u.(phase := Gone(if u.failure.Some? then u.failure.value else u.phase.thrown))
      else u.(phase := Gone(CleanupFailed), disposal := Forget(u.disposal, 0))
  }

  ghost predicate DisposalInv(d: Disposal) {
    && (d.cleanup.Some? ==> d.cleanup.value < |d.attempts|)
    && (forall k :: 0 <= k < |d.attempts| && !d.attempts[k].Failed? ==> d.cleanup == Some(k))
    && (d.released <==> exists k :: 0 <= k < |d.attempts| && d.attempts[k].Succeeded?)
  }

  ghost predicate UploadInv(u: Upload) {
    && 1 <= Reservation(u) <= u.maximum <= FILE_LIMIT
    && u.disk.scratch <= u.bytes <= Reservation(u)
    && (!u.disk.directory ==> u.disk.scratch == 0 && !u.disk.file)
    && (u.disk.file ==> Removing !in u.disposal.attempts)
    && (u.phase.SettingMode? || u.phase.OpeningFile? || u.phase.Piping? ==> u.disk.directory)
    && (u.disposal.released ==> !u.disk.directory)
    && (!u.phase.Cleaning? && Active(u) ==> u.disposal.attempts == [])
    && (u.phase.Cleaning? || u.phase.Gone? ==> |u.disposal.attempts| == 1)
    && (u.phase.Gone? ==> u.disposal.attempts[0].Succeeded? || u.disposal.attempts[0].Failed?)
    && (u.phase.Held? ==> 0 < u.bytes && (u.expected.Some? ==> u.bytes == u.expected.value)
                          && (u.disposal.attempts == [] ==> u.disk.scratch == u.bytes))
    && DisposalInv(u.disposal)
  }

  lemma StartedInv(spool: nat, maximum: nat, expected: Option<nat>)
    requires Requested(maximum, expected)
    ensures UploadInv(Started(spool, maximum, expected))
  {
  }

  lemma BeginInv(d: Disposal)
    requires DisposalInv(d)
    ensures DisposalInv(Begin(d)) && Begin(d).released == d.released && |Begin(d).attempts| >= 1
    ensures d.cleanup.Some? ==> Begin(d) == d
  {
    var b := Begin(d);
    assert forall k :: 0 <= k < |d.attempts| ==> b.attempts[k] == d.attempts[k];
  }

  lemma SetInv(d: Disposal, k: nat, a: Attempt)
    requires DisposalInv(d) && k < |d.attempts| && d.cleanup == Some(k) && !d.released
    ensures DisposalInv(d.(attempts := d.attempts[k := a], released := a.Succeeded?))
  {
    var set' := d.attempts[k := a];
    assert set'[k] == a;
    assert forall j :: 0 <= j < |set'| && j != k ==> set'[j] == d.attempts[j];
  }

  lemma Cleaned(d: Disposal, k: nat)
    requires DisposalInv(d) && k < |d.attempts| && (d.attempts[k].Closing? || d.attempts[k].Removing?)
    ensures d.cleanup == Some(k) && !d.released
  {
  }

  /** What every step keeps of the upload it happens to. */
  ghost predicate Follows(u: Upload, v: Upload) {
    && UploadInv(v) && v.spool == u.spool && Reservation(v) == Reservation(u)
    && (u.disposal.released ==> v.disposal.released)
    && (!Active(u) ==> !Active(v))
  }

  lemma FailFollows(u: Upload, code: Code)
    requires UploadInv(u) && Active(u) && u.disposal.attempts == []
    ensures Follows(u, Fail(u, code))
  {
    NoneYet(u.disposal);
    BeginInv(u.disposal);
  }

  lemma OpeningStep(u: Upload, e: Event)
    requires UploadInv(u) && Enabled(u, e) && (e.DirectoryMade? || e.ModeSet? || e.Opened?)
    ensures Follows(u, Next(u, e))
  {
    hide DisposalInv, Fail;
    NoneYet(u.disposal);
    var code := if u.failure.Some? then u.failure.value else IoFailed;
    FailFollows(u, IoFailed);
    FailFollows(u, code);
    if e.Opened? {
      FailFollows(u.(disk := u.disk.(file := true)), code);
    }
  }

  lemma PipingStep(u: Upload, e: Event)
    requires UploadInv(u) && Enabled(u, e) && (e.Chunk? || e.PipeEnded?)
    ensures Follows(u, Next(u, e))
  {
    hide DisposalInv, Fail;
    NoneYet(u.disposal);
    assert u.expected.Some? ==> Reservation(u) == u.expected.value;
    if e.PipeEnded? {
      FailFollows(u, if u.phase.rejected.Some? then u.phase.rejected.value else IoFailed);
      FailFollows(u, if u.failure.Some? then u.failure.value else EmptyUpload);
      FailFollows(u, LengthMismatch);
    } else if e.Chunk? {
      var v := Next(u, e);
      assert v.bytes <= Reservation(u) && v.disposal == u.disposal && v.disk == u.disk && v.phase.Piping?;
    }
  }

  lemma DisposingStep(u: Upload, e: Event)
    requires UploadInv(u) && Enabled(u, e) && (e.Dispose? || e.Closed? || e.Removed? || e.Caught? || e.Settled?)
    ensures Follows(u, Next(u, e))
  {
    hide DisposalInv;
    match e
    case Dispose => BeginInv(u.disposal);
    case Closed(k, ok) =>
      Cleaned(u.disposal, k);
      SetInv(u.disposal, k, if ok then Removing else Failed);
    case Removed(k, ok, left) =>
      Cleaned(u.disposal, k);
      SetInv(u.disposal, k, if ok then Succeeded else Failed);
    case Caught(k) => ForgetInv(u.disposal, k);
    case Settled => if !At(u, 0, Succeeded) { ForgetInv(u.disposal, 0); }
  }

  /** Every step keeps the bytes within the reservation and the disposal single-file. */
  lemma UploadStep(u: Upload, e: Event)
    requires UploadInv(u) && Enabled(u, e)
    ensures Follows(u, Next(u, e))
  {
    match e
    case DirectoryMade(_) => OpeningStep(u, e);
    case ModeSet(_) => OpeningStep(u, e);
    case Opened(_) => OpeningStep(u, e);
    case Chunk(_) => PipingStep(u, e);
    case Written(_) =>
    case PipeEnded(_) => PipingStep(u, e);
    case Stop(_) =>
    case _ => DisposingStep(u, e);
  }

  lemma NoneYet(d: Disposal)
    requires DisposalInv(d) && d.attempts == []
    ensures d.cleanup.None? && !d.released && |Begin(d).attempts| == 1
  {
  }

  lemma ForgetInv(d: Disposal, k: nat)
    requires DisposalInv(d) && k < |d.attempts| && d.attempts[k].Failed?
    ensures DisposalInv(Forget(d, k))
  {
  }

  // ---- What can still be given back ----

  predicate Possible(u: Upload, es: seq<Event>)
    decreases |es|
  {
    es == [] || (Enabled(u, es[0]) && Possible(Next(u, es[0]), es[1..]))
  }

  function After(u: Upload, es: seq<Event>): Upload
    requires Possible(u, es)
    decreases |es|
  {
    if es == [] then u else After(Next(u, es[0]), es[1..])
  }

  lemma {:induction false} RunInv(u: Upload, es: seq<Event>)
    requires UploadInv(u) && Possible(u, es)
    ensures UploadInv(After(u, es))
    decreases |es|
  {
    if es == [] {
    } else {
      UploadStep(u, es[0]);
      RunInv(Next(u, es[0]), es[1..]);
    }
  }

  /** What `bounded` lets through. */
  predicate Requested(maximum: nat, expected: Option<nat>) {
    1 <= maximum <= FILE_LIMIT && (expected.Some? ==> 1 <= expected.value <= maximum)
  }

  /** At most one removal is under way, whoever asked for it and however many attempts went before. */
  lemma OneRemovalAtATime(spool: nat, maximum: nat, expected: Option<nat>, es: seq<Event>, j: nat, k: nat)
    requires Requested(maximum, expected) && Possible(Started(spool, maximum, expected), es)
    requires var d := After(Started(spool, maximum, expected), es).disposal;
      j < |d.attempts| && k < |d.attempts| && !d.attempts[j].Failed? && !d.attempts[k].Failed?
    ensures j == k
  {
    StartedInv(spool, maximum, expected);
    RunInv(Started(spool, maximum, expected), es);
  }

  lemma Then(u: Upload, e: Event, es: seq<Event>)
    requires Enabled(u, e) && Possible(Next(u, e), es)
    ensures Possible(u, [e] + es) && After(u, [e] + es) == After(Next(u, e), es)
  {
    assert ([e] + es)[1..] == es;
  }

  function FromRemoving(k: nat): seq<Event> {
    [Removed(k, true, 0)] + []
  }

  function FromClosing(k: nat): seq<Event> {
    [Closed(k, true)] + FromRemoving(k)
  }

  /** How a holder gets its reservation back: join or restart the cleanup and let it succeed. */
  function WayBack(u: Upload): seq<Event> {
    match u.disposal.cleanup
    case None => [Dispose] + FromClosing(|u.disposal.attempts|)
    case Some(k) =>
      if At(u, k, Closing) then FromClosing(k)
      else if At(u, k, Removing) then FromRemoving(k)
      else [Caught(k)] + ([Dispose] + FromClosing(|u.disposal.attempts|))
  }

  lemma RemovingReleases(u: Upload, k: nat)
    requires At(u, k, Removing)
    ensures Possible(u, FromRemoving(k)) && After(u, FromRemoving(k)).disposal.released
  {
    Then(u, Removed(k, true, 0), []);
  }

  lemma ClosingReleases(u: Upload, k: nat)
    requires At(u, k, Closing)
    ensures Possible(u, FromClosing(k)) && After(u, FromClosing(k)).disposal.released
  {
    RemovingReleases(Next(u, Closed(k, true)), k);
    Then(u, Closed(k, true), FromRemoving(k));
  }

  lemma DisposeReleases(u: Upload)
    requires u.phase.Held? && u.disposal.cleanup.None?
    ensures Possible(u, [Dispose] + FromClosing(|u.disposal.attempts|))
    ensures After(u, [Dispose] + FromClosing(|u.disposal.attempts|)).disposal.released
  {
    ClosingReleases(Next(u, Dispose), |u.disposal.attempts|);
    Then(u, Dispose, FromClosing(|u.disposal.attempts|));
  }

  /** However many disposals have failed, a held upload can still be released. */
  lemma HeldCanBeReleased(u: Upload)
    requires UploadInv(u) && u.phase.Held? && !u.disposal.released
    ensures Possible(u, WayBack(u)) && After(u, WayBack(u)).disposal.released
  {
    hide Possible, After, FromClosing, FromRemoving;
    match u.disposal.cleanup
    case None => DisposeReleases(u);
    case Some(k) =>
      if At(u, k, Closing) {
        ClosingReleases(u, k);
      } else if At(u, k, Removing) {
        RemovingReleases(u, k);
      } else {
        DisposeReleases(Next(u, Caught(k)));
        Then(u, Caught(k), [Dispose] + FromClosing(|u.disposal.attempts|));
      }
  }

  /** A failed upload whose own cleanup has failed: nobody is left who could ask for another. */
  predicate Lost(u: Upload) {
    (u.phase.Cleaning? || u.phase.Gone?) && At(u, 0, Failed)
  }

  lemma {:induction false} LostForever(u: Upload, es: seq<Event>)
    requires UploadInv(u) && Lost(u) && Possible(u, es)
    ensures !After(u, es).disposal.released
    decreases |es|
  {
    if es == [] {
    } else {
      UploadStep(u, es[0]);
      LostStays(u, es[0]);
      LostForever(Next(u, es[0]), es[1..]);
    }
  }

  lemma LostStays(u: Upload, e: Event)
    requires UploadInv(u) && Lost(u) && Enabled(u, e)
    ensures Lost(Next(u, e))
  {
    assert e.Stop? || e.Written? || e.Caught? || e.Settled?;
  }

  /** The event that sends an upload under way into its cleanup. */
  function Failing(u: Upload): Event {
    match u.phase
    case MakingDirectory => DirectoryMade(false)
    case SettingMode => ModeSet(false)
    case OpeningFile => Opened(false)
    case _ => PipeEnded(false)
  }

  lemma FailingCleans(u: Upload)
    requires UploadInv(u) && Active(u) && !u.phase.Cleaning?
    ensures Enabled(u, Failing(u)) && At(Next(u, Failing(u)), 0, Closing)
  {
    NoneYet(u.disposal);
  }

  lemma ReleasedSomehow(u: Upload) returns (es: seq<Event>)
    requires UploadInv(u) && !Lost(u)
    ensures Possible(u, es) && After(u, es).disposal.released
  {
    if u.disposal.released {
      es := [];
    } else if u.phase.Held? {
      HeldCanBeReleased(u);
      es := WayBack(u);
    } else if u.phase.Cleaning? && At(u, 0, Closing) {
      ClosingReleases(u, 0);
      es := FromClosing(0);
    } else if u.phase.Cleaning? {
      assert At(u, 0, Removing);
      RemovingReleases(u, 0);
      es := FromRemoving(0);
    } else {
      FailingCleans(u);
      ClosingReleases(Next(u, Failing(u)), 0);
      Then(u, Failing(u), FromClosing(0));
      es := [Failing(u)] + FromClosing(0);
    }
  }

  /** Of every upload that can come about: its reservation can still be given back exactly unless it has failed and
      its own cleanup has failed too. */
  lemma ReleasableIffNotLost(spool: nat, maximum: nat, expected: Option<nat>, before: seq<Event>)
    requires Requested(maximum, expected) && Possible(Started(spool, maximum, expected), before)
    ensures var u := After(Started(spool, maximum, expected), before);
      (exists es :: Possible(u, es) && After(u, es).disposal.released) <==> !Lost(u)
  {
    StartedInv(spool, maximum, expected);
    RunInv(Started(spool, maximum, expected), before);
    var u := After(Started(spool, maximum, expected), before);
    if Lost(u) {
      forall es | Possible(u, es)
        ensures !After(u, es).disposal.released
      {
        LostForever(u, es);
      }
    } else {
      var es := ReleasedSomehow(u);
    }
  }

  /** It does come about: the mode cannot be set, and then the directory cannot be removed. */
  lemma LosingRun(spool: nat, maximum: nat, expected: Option<nat>)
    requires Requested(maximum, expected)
    ensures var es := [DirectoryMade(true)] + ([ModeSet(false)] + ([Closed(0, true)] + ([Removed(0, false, 0)] + ([Settled] + []))));
      && Possible(Started(spool, maximum, expected), es)
      && Lost(After(Started(spool, maximum, expected), es))
      && After(Started(spool, maximum, expected), es).phase == Gone(CleanupFailed)
  {
    var u0 := Started(spool, maximum, expected);
    var u1 := Next(u0, DirectoryMade(true));
    var u2 := Next(u1, ModeSet(false));
    var u3 := Next(u2, Closed(0, true));
    var u4 := Next(u3, Removed(0, false, 0));
    Then(u4, Settled, []);
    Then(u3, Removed(0, false, 0), [Settled] + []);
    Then(u2, Closed(0, true), [Removed(0, false, 0)] + ([Settled] + []));
    Then(u1, ModeSet(false), [Closed(0, true)] + ([Removed(0, false, 0)] + ([Settled] + [])));
    Then(u0, DirectoryMade(true), [ModeSet(false)] + ([Closed(0, true)] + ([Removed(0, false, 0)] + ([Settled] + []))));
  }
}
