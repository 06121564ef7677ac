/** Any number of concurrent reads and writes over one `Transactions` object and one connection
    pool.  A step is one synchronous segment of one of them; a run is any interleaving. */
module TransactionSystem {
  import opened TransactionAttempt
  import opened Wrappers

  datatype Connection = Available | Held(holder: nat) | Destroyed

  datatype Phase = Attempting | Delaying | Done(outcome: Outcome)

  /** One call of `write`: the attempts it has made, oldest first. */
  datatype Write = Write(history: seq<nat>, phase: Phase)

  /** `thrown` and `reused` record the identities the environment threw, and whether it ever threw one of
      the runner's own errors or the same error object twice. */
  datatype System = System(
    attempts: seq<Attempt>, writes: seq<Write>, connections: seq<Connection>,
    pending: nat, maxPending: nat, retryable: set<Error>, rolledBack: set<Error>,
    thrown: set<Error>, reused: bool)

  datatype Step =
    | BeginRead
    | BeginWrite
    | Local(i: nat, e: Event)
    | WriteCatch(w: nat)
    | RetryDue(w: nat)

  function Initial(maxPending: nat): System {
    System([], [], [], 0, maxPending, {}, {}, {}, false)
  }

  const LAST_RETRY: nat := 2

  function Last(h: seq<nat>): nat
    requires h != []
  {
    h[|h| - 1]
  }

  predicate Allowed(s: System, t: Step) {
    match t
    case BeginRead => true
    case BeginWrite => true
    case Local(i, e) =>
      && i < |s.attempts| && Enabled(s.attempts[i], e)
      && (e.AcquireResolved? ==> e.connection <= |s.connections|)
      && (e.AcquireResolved? && e.connection < |s.connections| ==> s.connections[e.connection].Available?)
    case WriteCatch(w) =>
      && w < |s.writes| && s.writes[w].phase.Attempting? && s.writes[w].history != []
      && Last(s.writes[w].history) < |s.attempts|
      && s.attempts[Last(s.writes[w].history)].caller.told.Some?
    case RetryDue(w) => w < |s.writes| && s.writes[w].phase.Delaying?
  }

  function Admit(s: System, writable: bool): System {
    s.(attempts := s.attempts + [Fresh(|s.attempts|, writable)], pending := s.pending + 1)
  }

  /** `run` refuses before it creates any state when too many transactions are unsettled. */
  function Attempted(s: System, h: seq<nat>): (System, Write) {
    if s.pending >= s.maxPending
    then (s, Write(h, Done(Failed(Unavailable(|s.attempts|, Admission)))))
    else (Admit(s, true), Write(h + [|s.attempts|], Attempting))
  }

  function Take(s: seq<Connection>, k: nat, i: nat): seq<Connection>
    requires k <= |s|
  {
    if k < |s| then s[k := Held(i)] else s + [Held(i)]
  }

  function Connect(s: seq<Connection>, i: nat, a: Attempt, e: Event, b: Attempt): seq<Connection>
    requires e.AcquireResolved? ==> e.connection <= |s|
  {
    var taken := if e.AcquireResolved? then Take(s, e.connection, i) else s;
    var k := b.lease.connection;
    if k >= |taken| then taken
    else if b.lease.destroyed && !a.lease.destroyed then taken[k := Destroyed]
    else if e.ReleaseFinished? && taken[k] == Held(i) then taken[k := Available]
    else taken
  }

  function Remembered(s: System, a: Attempt, e: Event): System {
    if e.Continue? && a.caller.race.Some? && a.caller.race.value.Failed? then
      var error := a.caller.race.value.error;
      if Rethrows(a, error) && a.state.rollbackConfirmed then
        s.(rolledBack := s.rolledBack + {error},
           retryable := if a.writable && LockFailure(error) then s.retryable + {error} else s.retryable)
      else s
    else s
  }

  function Apply(s: System, t: Step): System
    requires Allowed(s, t)
  {
    match t
    case BeginRead => if s.pending >= s.maxPending then s else Admit(s, false)
    case BeginWrite => var (next, w) := Attempted(s, []); next.(writes := s.writes + [w])
    case Local(i, e) =>
      var a := s.attempts[i];
      var b := Next(a, e);
      var settles := e.WorkResolved? || e.WorkRejected?;
      Remembered(s, a, e).(
        attempts := s.attempts[i := b],
        connections := Connect(s.connections, i, a, e, b),
        pending := if settles && s.pending > 0 then s.pending - 1 else s.pending,
        thrown := if e.WorkRejected? then s.thrown + {e.error} else s.thrown,
        reused := s.reused || (e.WorkRejected? && (!e.error.Thrown? || e.error in s.thrown)))
    case WriteCatch(w) =>
      var write := s.writes[w];
      (match s.attempts[Last(write.history)].caller.told.value
       case Succeeded => s.(writes := s.writes[w := write.(phase := Done(Succeeded))])
       case Failed(error) =>
         var phase := if |write.history| - 1 >= LAST_RETRY || error !in s.retryable
                      then Done(Failed(error)) else Delaying;
         s.(writes := s.writes[w := write.(phase := phase)], retryable := s.retryable - {error}))
    case RetryDue(w) => var (next, write) := Attempted(s, s.writes[w].history); next.(writes := s.writes[w := write])
  }

  // ---- Invariants ----

  ghost predicate AttemptsInv(s: System) {
    forall i :: 0 <= i < |s.attempts| ==> Inv(s.attempts[i]) && s.attempts[i].id == i
  }

  /** The number of admitted transactions whose work has not settled. */
  function Unsettled(attempts: seq<Attempt>): nat {
    if attempts == [] then 0
    else Unsettled(attempts[..|attempts| - 1]) + (if attempts[|attempts| - 1].caller.work.None? then 1 else 0)
  }

  ghost predicate PendingInv(s: System) {
    s.pending == Unsettled(s.attempts) && s.pending <= s.maxPending
  }

  /** A checkout that is owned is the one its connection is held by. */
  ghost predicate ConnectionsInv(s: System) {
    forall i :: 0 <= i < |s.attempts| && s.attempts[i].lease.owned ==>
      s.attempts[i].lease.connection < |s.connections| && s.connections[s.attempts[i].lease.connection] == Held(i)
  }

  /** An attempt whose caller was told a failure and which can never commit. */
  ghost predicate Lost(a: Attempt) {
    a.caller.told.Some? && a.caller.told.value.Failed? && !a.state.commitStarted
  }

  ghost predicate WriteInv(s: System, w: Write) {
    var h := w.history;
    && |h| <= LAST_RETRY + 1
    && (forall j :: 0 <= j < |h| ==> h[j] < |s.attempts| && s.attempts[h[j]].writable)
    && (forall j, k :: 0 <= j < k < |h| ==> h[j] != h[k])
    && (forall j :: 0 <= j < |h| - 1 ==> Lost(s.attempts[h[j]]))
    && (w.phase.Attempting? ==> h != [])
    && (w.phase.Delaying? ==> h != [] && |h| <= LAST_RETRY && Lost(s.attempts[Last(h)]))
    && (w.phase == Done(Succeeded) ==> h != [] && s.attempts[Last(h)].caller.told == Some(Succeeded))
    && (w.phase.Done? && w.phase.outcome.Failed? ==>
          (h != [] && s.attempts[Last(h)].caller.told == Some(w.phase.outcome))
          || (w.phase.outcome.error.Unavailable? && w.phase.outcome.error.reason.Admission? &&
              (h != [] ==> Lost(s.attempts[Last(h)]))))
  }

  ghost predicate WritesInv(s: System) {
    && (forall e :: e in s.retryable ==> LockFailure(e) && e in s.rolledBack)
    && (forall w :: 0 <= w < |s.writes| ==> WriteInv(s, s.writes[w]))
  }

  ghost predicate SystemInv(s: System) {
    AttemptsInv(s) && PendingInv(s) && ConnectionsInv(s) && WritesInv(s)
  }

  lemma {:induction false} UnsettledUpdate(attempts: seq<Attempt>, i: nat, b: Attempt)
    requires i < |attempts|
    ensures Unsettled(attempts[i := b]) ==
            Unsettled(attempts) - (if attempts[i].caller.work.None? then 1 else 0) + (if b.caller.work.None? then 1 else 0)
  {
    var n := |attempts| - 1;
    if i == n {
      assert attempts[i := b][..n] == attempts[..n];
    } else {
      assert attempts[i := b][..n] == attempts[..n][i := b];
      UnsettledUpdate(attempts[..n], i, b);
    }
  }

  lemma UnsettledAppend(attempts: seq<Attempt>, a: Attempt)
    ensures Unsettled(attempts + [a]) == Unsettled(attempts) + (if a.caller.work.None? then 1 else 0)
  {
    assert (attempts + [a])[..|attempts|] == attempts;
  }

  /** An unsettled attempt is counted. */
  lemma UnsettledCounts(attempts: seq<Attempt>, i: nat)
    requires i < |attempts| && attempts[i].caller.work.None?
    ensures Unsettled(attempts) > 0
  {
    var n := |attempts| - 1;
    if i == n {
    } else {
      UnsettledCounts(attempts[..n], i);
    }
  }

  lemma PendingOf(s: System, i: nat)
    requires SystemInv(s) && i < |s.attempts|
    ensures s.attempts[i].caller.work.None? ==> s.pending > 0
  {
    if s.attempts[i].caller.work.None? {
      UnsettledCounts(s.attempts, i);
    }
  }

  /** What a step does to the attempts: one of them moves, or one is added, or nothing. */
  ghost predicate Moves(s: System, t: Step, attempts: seq<Attempt>)
    requires Allowed(s, t)
  {
    match t
    case Local(i, e) => attempts == s.attempts[i := Next(s.attempts[i], e)]
    case _ =>
      || attempts == s.attempts
      || attempts == s.attempts + [Fresh(|s.attempts|, true)] || attempts == s.attempts + [Fresh(|s.attempts|, false)]
  }

  lemma StepMoves(s: System, t: Step)
    requires Allowed(s, t)
    ensures Moves(s, t, Apply(s, t).attempts)
  {
    hide Next, Fresh, Connect, Remembered;
  }

  lemma FreshInv(i: nat, writable: bool)
    ensures Inv(Fresh(i, writable)) && Fresh(i, writable).id == i && Fresh(i, writable).writable == writable
    ensures Fresh(i, writable).caller.work.None? && !Fresh(i, writable).lease.owned
  {
  }

  lemma AttemptsStep(s: System, t: Step)
    requires AttemptsInv(s) && Allowed(s, t)
    ensures AttemptsInv(Apply(s, t))
  {
    StepMoves(s, t);
    FreshInv(|s.attempts|, true);
    FreshInv(|s.attempts|, false);
    if t.Local? {
      StepInv(s.attempts[t.i], t.e);
      IdStays(s.attempts[t.i], [t.e]);
      IdIs(s.attempts[t.i], t.e);
    }
    hide Apply, Next, Fresh, Inv, Enabled;
    assert Moves(s, t, Apply(s, t).attempts);
  }

  lemma IdIs(a: Attempt, e: Event)
    requires Enabled(a, e)
    ensures Next(a, e).id == a.id && Next(a, e).writable == a.writable
  {
  }

  lemma PendingStep(s: System, t: Step)
    requires AttemptsInv(s) && PendingInv(s) && Allowed(s, t)
    ensures PendingInv(Apply(s, t))
  {
    if t.Local? {
      PendingLocal(s, t.i, t.e);
    } else {
      FreshInv(|s.attempts|, true);
      FreshInv(|s.attempts|, false);
      hide Next, Connect, Remembered, Fresh, Inv, Enabled, Unsettled;
      UnsettledAppend(s.attempts, Fresh(|s.attempts|, true));
      UnsettledAppend(s.attempts, Fresh(|s.attempts|, false));
    }
  }

  lemma PendingLocal(s: System, i: nat, e: Event)
    requires AttemptsInv(s) && PendingInv(s) && Allowed(s, Local(i, e))
    ensures PendingInv(Apply(s, Local(i, e)))
  {
    hide Next, Connect, Rethrows, LockFailure, Inv, Enabled, Unsettled;
    AnswerStep(s.attempts[i], e);
    UnsettledUpdate(s.attempts, i, Next(s.attempts[i], e));
  }

  /** Only the attempt that steps, and only its own connection, can lose or gain ownership. */
  lemma LeaseStep(a: Attempt, e: Event)
    requires Inv(a) && Enabled(a, e)
    ensures var b := Next(a, e);
      && (b.lease.owned && !a.lease.owned ==> e.AcquireResolved?)
      && (b.lease.destroyed && !a.lease.destroyed ==> !b.lease.owned && (a.lease.owned || e.AcquireResolved?))
      && (e.AcquireResolved? ==> b.lease.connection == e.connection)
      && (!e.AcquireResolved? ==> b.lease.connection == a.lease.connection)
      && (e.ReleaseFinished? ==> !b.lease.owned)
  {
  }

  lemma ConnectionsStep(s: System, t: Step)
    requires AttemptsInv(s) && ConnectionsInv(s) && Allowed(s, t)
    ensures ConnectionsInv(Apply(s, t))
  {
    FreshInv(|s.attempts|, true);
    FreshInv(|s.attempts|, false);
    hide Next, Fresh, Inv, Enabled;
    if t.Local? {
      ConnectionsLocal(s, t.i, t.e);
    }
  }

  lemma ConnectionsLocal(s: System, i: nat, e: Event)
    requires AttemptsInv(s) && ConnectionsInv(s) && Allowed(s, Local(i, e))
    ensures ConnectionsInv(Apply(s, Local(i, e)))
  {
    var n, b := Apply(s, Local(i, e)), Next(s.attempts[i], e);
    LeaseStep(s.attempts[i], e);
    hide Next, Inv, Enabled;
    forall j | 0 <= j < |n.attempts| && n.attempts[j].lease.owned
      ensures n.attempts[j].lease.connection < |n.connections| && n.connections[n.attempts[j].lease.connection] == Held(j)
    {
      assert n.attempts[j] == if j == i then b else s.attempts[j];
    }
  }

  /** A connection is destroyed only by the attempt that holds it, or by the one that has just acquired it
      for a transaction already closed: no timer and no `finally` reaches another holder's connection. */
  lemma OnlyTheHolderDestroys(s: System, t: Step, k: nat)
    requires AttemptsInv(s) && ConnectionsInv(s) && Allowed(s, t)
    requires k < |Apply(s, t).connections| && Apply(s, t).connections[k].Destroyed?
    requires k < |s.connections| ==> !s.connections[k].Destroyed?
    ensures t.Local? && ((t.e == AcquireResolved(k) && s.attempts[t.i].state.closed)
                         || (k < |s.connections| && s.connections[k] == Held(t.i) && s.attempts[t.i].lease.owned))
  {
    if t.Local? {
      LeaseStep(s.attempts[t.i], t.e);
    }
  }

  /** What never changes once it is established about an attempt. */
  lemma StableStep(s: System, t: Step, i: nat)
    requires AttemptsInv(s) && Allowed(s, t) && i < |s.attempts|
    ensures var n := Apply(s, t);
      && i < |n.attempts|
      && n.attempts[i].writable == s.attempts[i].writable
      && (s.attempts[i].caller.told.Some? ==>
            n.attempts[i].caller.told == s.attempts[i].caller.told
            && n.attempts[i].state.commitStarted == s.attempts[i].state.commitStarted)
      && (s.attempts[i].state.rollbackConfirmed ==> n.attempts[i].state.rollbackConfirmed)
  {
    StepMoves(s, t);
    if t.Local? {
      StableLocal(s.attempts[t.i], t.e);
    }
    hide Apply, Next, Fresh, Inv, Enabled;
    assert Moves(s, t, Apply(s, t).attempts);
  }

  lemma StableLocal(a: Attempt, e: Event)
    requires Inv(a) && Enabled(a, e)
    ensures var b := Next(a, e);
      && b.writable == a.writable
      && (a.caller.told.Some? ==> b.caller.told == a.caller.told && b.state.commitStarted == a.state.commitStarted)
      && (a.state.rollbackConfirmed ==> b.state.rollbackConfirmed)
  {
    IdIs(a, e);
    if a.caller.told.Some? {
      ToldIsFinal(a, e);
    }
  }

  lemma WriteStable(s: System, t: Step, w: Write)
    requires AttemptsInv(s) && Allowed(s, t) && WriteInv(s, w)
    ensures WriteInv(Apply(s, t), w)
  {
    hide Apply, Inv;
    forall i | 0 <= i < |s.attempts| {
      StableStep(s, t, i);
    }
  }

  /** The write whose turn it is: another attempt only after one that can never commit. */
  lemma CatchTurn(s: System, w: nat)
    requires AttemptsInv(s) && WritesInv(s) && Allowed(s, WriteCatch(w))
    ensures WriteInv(Apply(s, WriteCatch(w)), Apply(s, WriteCatch(w)).writes[w])
  {
    assert WriteInv(s, s.writes[w]);
    assert Inv(s.attempts[Last(s.writes[w].history)]);
  }

  lemma AttemptedTurn(s: System, w: Write)
    requires AttemptsInv(s) && WriteInv(s, w) && w.phase.Delaying?
    ensures WriteInv(Attempted(s, w.history).0, Attempted(s, w.history).1)
  {
    FreshInv(|s.attempts|, true);
    hide AttemptsInv, Fresh;
    var h := Attempted(s, w.history).1.history;
    assert forall j :: 0 <= j < |w.history| ==> h[j] == w.history[j];
  }

  lemma WriteStep(s: System, t: Step, w: nat)
    requires AttemptsInv(s) && WritesInv(s) && Allowed(s, t) && w < |Apply(s, t).writes|
    ensures WriteInv(Apply(s, t), Apply(s, t).writes[w])
  {
    WritesAre(s, t, w);
    hide AttemptsInv, Apply;
    if t == WriteCatch(w) {
      CatchTurn(s, w);
    } else if t == RetryDue(w) {
      AttemptedTurn(s, s.writes[w]);
    } else if w < |s.writes| {
      WriteStable(s, t, s.writes[w]);
    } else {
      NewTurn(s);
    }
  }

  /** A write changes only at its own turn. */
  lemma WritesAre(s: System, t: Step, w: nat)
    requires Allowed(s, t) && w < |Apply(s, t).writes|
    ensures w < |s.writes| && t != WriteCatch(w) && t != RetryDue(w) ==> Apply(s, t).writes[w] == s.writes[w]
    ensures w >= |s.writes| ==> t.BeginWrite? && w == |s.writes|
    ensures t == RetryDue(w) ==>
      Apply(s, t) == Attempted(s, s.writes[w].history).0.(writes := s.writes[w := Apply(s, t).writes[w]])
      && Apply(s, t).writes[w] == Attempted(s, s.writes[w].history).1
  {
    hide Next, Connect, Fresh;
  }

  lemma NewTurn(s: System)
    requires Allowed(s, BeginWrite)
    ensures WriteInv(Apply(s, BeginWrite), Apply(s, BeginWrite).writes[|s.writes|])
  {
    FreshInv(|s.attempts|, true);
    hide Fresh;
  }

  /** Retryable errors are remembered lock failures. */
  lemma RetryableStep(s: System, t: Step)
    requires WritesInv(s) && Allowed(s, t)
    ensures forall e :: e in Apply(s, t).retryable ==> LockFailure(e) && e in Apply(s, t).rolledBack
  {
    hide Next, Connect, LockFailure, Rethrows, WriteInv, Fresh;
  }

  lemma WritesStep(s: System, t: Step)
    requires AttemptsInv(s) && WritesInv(s) && Allowed(s, t)
    ensures WritesInv(Apply(s, t))
  {
    RetryableStep(s, t);
    hide Apply, WriteInv, AttemptsInv, LockFailure;
    forall w | 0 <= w < |Apply(s, t).writes|
      ensures WriteInv(Apply(s, t), Apply(s, t).writes[w])
    {
      WriteStep(s, t, w);
    }
  }

  lemma SystemStep(s: System, t: Step)
    requires SystemInv(s) && Allowed(s, t)
    ensures SystemInv(Apply(s, t))
  {
    AttemptsStep(s, t);
    PendingStep(s, t);
    ConnectionsStep(s, t);
    WritesStep(s, t);
  }

  // ---- Error identity ----

  /** While the environment never reuses an error object, an error leads back to one attempt. */
  ghost predicate ErrorsInv(s: System) {
    WorkErrorsInv(s) && ToldErrorsInv(s) && RolledBackInv(s)
  }

  predicate WorkFailed(a: Attempt) {
    a.caller.work.Some? && a.caller.work.value.Failed?
  }

  predicate ToldFailure(a: Attempt) {
    a.caller.told.Some? && a.caller.told.value.Failed?
  }

  ghost predicate WorkErrorsInv(s: System) {
    && (forall i :: 0 <= i < |s.attempts| && WorkFailed(s.attempts[i]) ==> Recorded(s, s.attempts[i]))
    && (forall i, j :: 0 <= i < j < |s.attempts| && WorkFailed(s.attempts[i]) && WorkFailed(s.attempts[j]) ==>
          s.attempts[i].caller.work != s.attempts[j].caller.work)
  }

  predicate Recorded(s: System, a: Attempt)
    requires WorkFailed(a)
  {
    a.caller.work.value.error.Thrown? && a.caller.work.value.error in s.thrown
  }

  ghost predicate ToldErrorsInv(s: System) {
    forall i :: 0 <= i < |s.attempts| && ToldFailure(s.attempts[i]) ==> OwnError(s.attempts[i], i)
  }

  /** The error is either the one the work ended with or one that this attempt constructed. */
  predicate OwnError(a: Attempt, i: nat)
    requires ToldFailure(a)
  {
    var e := a.caller.told.value.error;
    if e.Thrown? then a.caller.work == a.caller.told else e.attempt == i
  }

  ghost predicate RolledBackInv(s: System) {
    forall e :: e in s.rolledBack ==> exists i :: 0 <= i < |s.attempts| && RolledBackWith(s.attempts[i], e)
  }

  ghost predicate RolledBackWith(a: Attempt, e: Error) {
    a.caller.told == Some(Failed(e)) && a.state.rollbackConfirmed && !a.state.commitStarted
  }

  ghost predicate RetriedAfterRollback(a: Attempt) {
    && a.caller.told.Some? && a.caller.told.value.Failed?
    && LockFailure(a.caller.told.value.error)
    && RolledBackWith(a, a.caller.told.value.error)
  }

  /** Every attempt that was followed by another one, or is about to be, was rolled back for a lock failure. */
  ghost predicate RetriesInv(s: System, w: Write) {
    forall j :: 0 <= j < |w.history| - (if w.phase.Delaying? then 0 else 1) && w.history[j] < |s.attempts| ==>
      RetriedAfterRollback(s.attempts[w.history[j]])
  }

  ghost predicate IdentityInv(s: System) {
    !s.reused ==> ErrorsInv(s) && forall w :: 0 <= w < |s.writes| ==> RetriesInv(s, s.writes[w])
  }

  /** With fresh errors, being in the rolled-back set is a fact about the very attempt that was told the error. */
  lemma RolledBackIsOwn(s: System, i: nat, e: Error)
    requires AttemptsInv(s) && ErrorsInv(s)
    requires i < |s.attempts| && s.attempts[i].caller.told == Some(Failed(e)) && e in s.rolledBack
    ensures RolledBackWith(s.attempts[i], e)
  {
    var j :| 0 <= j < |s.attempts| && RolledBackWith(s.attempts[j], e);
    assert OwnError(s.attempts[i], i) && OwnError(s.attempts[j], j);
  }

  function ToldBy(a: Attempt): Option<Outcome>
    requires a.caller.race.Some?
  {
    match a.caller.race.value
    case Succeeded => Some(Succeeded)
    case Failed(e) => Some(Failed(Classify(a, e)))
  }

  /** How one step of one attempt can change what it was told and what its work ended with. */
  lemma AnswerStep(a: Attempt, e: Event)
    requires Inv(a) && Enabled(a, e)
    ensures var b := Next(a, e);
      && b.caller.work == (if e.WorkResolved? then Some(Succeeded) else if e.WorkRejected? then Some(Failed(e.error)) else a.caller.work)
      && b.caller.told == (if e.Continue? then ToldBy(a) else a.caller.told)
      && (e.WorkResolved? || e.WorkRejected? ==> a.caller.work.None?)
      && (a.caller.told.Some? ==> !e.Continue? && b.state.commitStarted == a.state.commitStarted)
      && (a.state.rollbackConfirmed ==> b.state.rollbackConfirmed)
      && (e.Continue? ==> b.state.rollbackConfirmed == a.state.rollbackConfirmed && b.state.commitStarted == a.state.commitStarted)
      && (e.Continue? && a.caller.race.value.Failed? ==>
            a.caller.race.value.error == Unavailable(a.id, TransactionTimeout) || a.caller.work == a.caller.race)
  {
  }

  lemma WorkErrorsLocal(s: System, i: nat, e: Event)
    requires AttemptsInv(s) && WorkErrorsInv(s) && Allowed(s, Local(i, e)) && !Apply(s, Local(i, e)).reused
    ensures WorkErrorsInv(Apply(s, Local(i, e)))
  {
    hide Next, Connect;
    AnswerStep(s.attempts[i], e);
  }

  lemma ToldErrorsLocal(s: System, i: nat, e: Event)
    requires AttemptsInv(s) && WorkErrorsInv(s) && ToldErrorsInv(s) && Allowed(s, Local(i, e))
    ensures ToldErrorsInv(Apply(s, Local(i, e)))
  {
    hide Next, Connect;
    AnswerStep(s.attempts[i], e);
    assert WorkFailed(s.attempts[i]) ==> Recorded(s, s.attempts[i]);
    assert ToldFailure(s.attempts[i]) ==> OwnError(s.attempts[i], i);
  }

  lemma RolledBackLocal(s: System, i: nat, e: Event)
    requires AttemptsInv(s) && RolledBackInv(s) && Allowed(s, Local(i, e))
    ensures RolledBackInv(Apply(s, Local(i, e)))
  {
    hide Next, Connect;
    var n := Apply(s, Local(i, e));
    AnswerStep(s.attempts[i], e);
    forall x | x in n.rolledBack
      ensures exists j :: 0 <= j < |n.attempts| && RolledBackWith(n.attempts[j], x)
    {
      if x in s.rolledBack {
        var j :| 0 <= j < |s.attempts| && RolledBackWith(s.attempts[j], x);
        assert RolledBackWith(n.attempts[j], x);
      } else {
        assert RolledBackWith(n.attempts[i], x);
      }
    }
  }

  lemma ErrorsAdmit(s: System, writable: bool)
    requires ErrorsInv(s)
    ensures ErrorsInv(Admit(s, writable))
  {
    var n := Admit(s, writable);
    forall x | x in n.rolledBack
      ensures exists j :: 0 <= j < |n.attempts| && RolledBackWith(n.attempts[j], x)
    {
      var j :| 0 <= j < |s.attempts| && RolledBackWith(s.attempts[j], x);
      assert n.attempts[j] == s.attempts[j];
    }
  }

  lemma ErrorsStep(s: System, t: Step)
    requires AttemptsInv(s) && ErrorsInv(s) && Allowed(s, t) && !Apply(s, t).reused
    ensures ErrorsInv(Apply(s, t))
  {
    hide Next, Connect, Remembered;
    if t.Local? {
      WorkErrorsLocal(s, t.i, t.e);
      ToldErrorsLocal(s, t.i, t.e);
      RolledBackLocal(s, t.i, t.e);
    } else {
      ErrorsAdmit(s, true);
      ErrorsAdmit(s, false);
    }
  }

  lemma RetriesStable(s: System, t: Step, w: Write)
    requires AttemptsInv(s) && Allowed(s, t) && WriteInv(s, w) && RetriesInv(s, w)
    ensures RetriesInv(Apply(s, t), w)
  {
    hide Apply, Inv, LockFailure;
    forall i | 0 <= i < |s.attempts| {
      StableStep(s, t, i);
    }
  }

  lemma RetriesCatch(s: System, w: nat)
    requires SystemInv(s) && ErrorsInv(s) && Allowed(s, WriteCatch(w)) && RetriesInv(s, s.writes[w])
    ensures RetriesInv(Apply(s, WriteCatch(w)), Apply(s, WriteCatch(w)).writes[w])
  {
    hide Inv, ErrorsInv, LockFailure;
    var before := s.writes[w];
    var i := Last(before.history);
    assert WriteInv(s, before);
    if Apply(s, WriteCatch(w)).writes[w].phase.Delaying? {
      RolledBackIsOwn(s, i, s.attempts[i].caller.told.value.error);
    }
  }

  lemma RetriesStep(s: System, t: Step, w: nat)
    requires SystemInv(s) && ErrorsInv(s) && Allowed(s, t) && w < |Apply(s, t).writes|
    requires w < |s.writes| ==> RetriesInv(s, s.writes[w])
    ensures RetriesInv(Apply(s, t), Apply(s, t).writes[w])
  {
    WritesAre(s, t, w);
    if t == WriteCatch(w) {
      RetriesCatch(s, w);
    } else if w < |s.writes| {
      assert WriteInv(s, s.writes[w]);
      RetriesStable(s, t, s.writes[w]);
      RetriesRetry(s, t, w);
    }
  }

  lemma RetriesRetry(s: System, t: Step, w: nat)
    requires Allowed(s, t) && w < |s.writes| && t != WriteCatch(w) && RetriesInv(Apply(s, t), s.writes[w])
    ensures w < |Apply(s, t).writes| && RetriesInv(Apply(s, t), Apply(s, t).writes[w])
  {
    hide Next, Connect, Fresh, RetriedAfterRollback;
  }

  lemma NeverUnused(s: System, t: Step)
    requires Allowed(s, t) && !Apply(s, t).reused
    ensures !s.reused
  {
    hide Next, Connect, Remembered, Fresh;
  }

  lemma IdentityStep(s: System, t: Step)
    requires SystemInv(s) && IdentityInv(s) && Allowed(s, t)
    ensures IdentityInv(Apply(s, t))
  {
    var n := Apply(s, t);
    if !n.reused {
      NeverUnused(s, t);
      ErrorsStep(s, t);
      hide Apply, ErrorsInv, RetriesInv;
      forall w | 0 <= w < |n.writes|
        ensures RetriesInv(n, n.writes[w])
      {
        RetriesStep(s, t, w);
      }
    }
  }

  // ---- Runs ----

  predicate Possible(s: System, ts: seq<Step>)
    decreases |ts|
  {
    ts == [] || (Allowed(s, ts[0]) && Possible(Apply(s, ts[0]), ts[1..]))
  }

  function After(s: System, ts: seq<Step>): System
    requires Possible(s, ts)
    decreases |ts|
  {
    if ts == [] then s else After(Apply(s, ts[0]), ts[1..])
  }

  lemma {:induction false} RunInv(s: System, ts: seq<Step>)
    requires SystemInv(s) && IdentityInv(s) && Possible(s, ts)
    ensures SystemInv(After(s, ts)) && IdentityInv(After(s, ts))
    decreases |ts|
  {
    if ts == [] {
    } else {
      SystemStep(s, ts[0]);
      IdentityStep(s, ts[0]);
      RunInv(Apply(s, ts[0]), ts[1..]);
    }
  }

  /** A write that has ended is over: it keeps its outcome and starts no further attempt. */
  lemma {:induction false} DoneStays(s: System, ts: seq<Step>, w: nat)
    requires Possible(s, ts) && w < |s.writes| && s.writes[w].phase.Done?
    ensures w < |After(s, ts).writes| && After(s, ts).writes[w] == s.writes[w]
    decreases |ts|
  {
    if ts == [] {
    } else {
      assert Apply(s, ts[0]).writes[w] == s.writes[w];
      DoneStays(Apply(s, ts[0]), ts[1..], w);
    }
  }

  predicate FailedCleanly(w: Write) {
    w.phase.Done? && w.phase.outcome.Failed? && !w.phase.outcome.error.CommitOutcomeUnknown?
  }

  /** Commits submitted to the driver by the attempts of one write. */
  function Commits(s: System, history: seq<nat>): nat {
    if history == [] then 0
    else Commits(s, history[..|history| - 1])
         + (if Last(history) < |s.attempts| then s.attempts[Last(history)].engine.commits else 0)
  }

  lemma {:induction false} LostCommitNothing(s: System, history: seq<nat>)
    requires AttemptsInv(s)
    requires forall j :: 0 <= j < |history| ==> history[j] < |s.attempts| && Lost(s.attempts[history[j]])
    ensures Commits(s, history) == 0
  {
    if history == [] {
    } else {
      assert Inv(s.attempts[Last(history)]);
      LostCommitNothing(s, history[..|history| - 1]);
    }
  }

  /** In every reachable state, at every moment before and after the caller of `write` is told: all its
      attempts together submit at most one commit; a success means exactly one, acknowledged; a failure other
      than `commit_outcome_unknown` means none, ever. */
  lemma WriteCommitsAtMostOnce(maxPending: nat, ts: seq<Step>, later: seq<Step>, w: nat)
    requires Possible(Initial(maxPending), ts) && Possible(After(Initial(maxPending), ts), later)
    requires w < |After(Initial(maxPending), ts).writes|
    ensures var s := After(Initial(maxPending), ts);
      var end := After(s, later);
      && Commits(s, s.writes[w].history) <= 1
      && (s.writes[w].phase.Done? ==> w < |end.writes| && end.writes[w] == s.writes[w])
      && (s.writes[w].phase == Done(Succeeded) ==>
            Commits(end, s.writes[w].history) == 1
            && s.writes[w].history != [] && Last(s.writes[w].history) < |end.attempts|
            && end.attempts[Last(s.writes[w].history)].engine.acknowledged)
      && (FailedCleanly(s.writes[w]) ==> Commits(end, s.writes[w].history) == 0)
  {
    var s := After(Initial(maxPending), ts);
    RunInv(Initial(maxPending), ts);
    RunInv(s, later);
    AtMostOne(s, w);
    if s.writes[w].phase.Done? {
      DoneStays(s, later, w);
      AtMostOne(After(s, later), w);
    }
  }

  lemma AtMostOne(s: System, w: nat)
    requires SystemInv(s) && w < |s.writes|
    ensures var write := s.writes[w];
      && Commits(s, write.history) <= 1
      && (write.phase == Done(Succeeded) ==>
            Commits(s, write.history) == 1 && s.attempts[Last(write.history)].engine.acknowledged)
      && (FailedCleanly(write) ==> Commits(s, write.history) == 0)
  {
    var write := s.writes[w];
    assert WriteInv(s, write);
    if write.history != [] {
      LostCommitNothing(s, write.history[..|write.history| - 1]);
      assert Inv(s.attempts[Last(write.history)]);
    }
  }

  lemma HistoryExists(s: System, w: nat)
    requires SystemInv(s) && w < |s.writes|
    ensures s.writes[w].phase == Done(Succeeded) ==> s.writes[w].history != [] && Last(s.writes[w].history) < |s.attempts|
  {
    assert WriteInv(s, s.writes[w]);
  }

  /** At most three attempts, and while the environment throws no error object twice, the runner starts
      another one only after the previous one was confirmed rolled back for a lock failure, and reports a
      rollback as confirmed only for an attempt that was rolled back and never commits. */
  lemma RetryOnlyAfterRollback(maxPending: nat, ts: seq<Step>)
    requires Possible(Initial(maxPending), ts) && !After(Initial(maxPending), ts).reused
    ensures var s := After(Initial(maxPending), ts);
      && (forall w :: 0 <= w < |s.writes| ==> |s.writes[w].history| <= 3)
      && (forall w, j :: 0 <= w < |s.writes| && 0 <= j < |s.writes[w].history| - 1 ==>
            s.writes[w].history[j] < |s.attempts| && RetriedAfterRollback(s.attempts[s.writes[w].history[j]]))
      && (forall i, e :: 0 <= i < |s.attempts| && s.attempts[i].caller.told == Some(Failed(e)) && e in s.rolledBack ==>
            s.attempts[i].state.rollbackConfirmed && s.attempts[i].engine.commits == 0)
  {
    var s := After(Initial(maxPending), ts);
    RunInv(Initial(maxPending), ts);
    forall w | 0 <= w < |s.writes|
      ensures WriteInv(s, s.writes[w]) && RetriesInv(s, s.writes[w])
    {
    }
    forall i, e | 0 <= i < |s.attempts| && s.attempts[i].caller.told == Some(Failed(e)) && e in s.rolledBack
      ensures s.attempts[i].state.rollbackConfirmed && s.attempts[i].engine.commits == 0
    {
      RolledBackIsOwn(s, i, e);
    }
  }

  /** Admission counts exactly the works that have not settled, timed-out callers included. */
  lemma AdmissionIsExact(maxPending: nat, ts: seq<Step>)
    requires Possible(Initial(maxPending), ts)
    ensures var s := After(Initial(maxPending), ts);
      s.pending == Unsettled(s.attempts) && Unsettled(s.attempts) <= maxPending
  {
    RunInv(Initial(maxPending), ts);
    BoundStays(Initial(maxPending), ts);
  }

  lemma {:induction false} BoundStays(s: System, ts: seq<Step>)
    requires Possible(s, ts)
    ensures After(s, ts).maxPending == s.maxPending
    decreases |ts|
  {
    if ts == [] {
    } else {
      BoundStays(Apply(s, ts[0]), ts[1..]);
    }
  }
}
