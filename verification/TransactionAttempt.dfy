/** One call of `Transactions.run` together with the adapter hooks that touch its
    `TransactionState`.  Every synchronous stretch of JavaScript between two awaits is one
    event; `Next` gives its effect and `Enabled` the contract under which the database
    engine and the driver may trigger it. */
module TransactionAttempt {
  import opened Wrappers

  datatype Failure = Admission | Acquisition | StatementTimeout | TransactionTimeout

  /** The parts of a thrown value that the runner inspects. */
  datatype Shape = Shape(code: string, metaCode: string, causeKind: string, causeCode: int, causeOriginal: string)

  /** Error objects.  The runner's own errors are freshly constructed, so the attempt that
      made one identifies it; a foreign error carries an identity of its own. */
  datatype Error =
    | Unavailable(attempt: nat, reason: Failure)
    | CommitOutcomeUnknown(attempt: nat)
    | Thrown(identity: nat, shape: Shape)

  predicate LockFailure(e: Error) {
    e.Thrown? &&
    var s := e.shape;
    || (s.code == "P2010" && s.metaCode in ["1205", "1213"])
    || s.code == "P2034"
    || s.causeKind == "TransactionWriteConflict"
    || s.causeCode == 1205
    || s.causeOriginal == "1205"
  }

  predicate AcquisitionCode(e: Error) {
    e.Thrown? && e.shape.code in ["P2024", "P2028"]
  }

  datatype Outcome = Succeeded | Failed(error: Error)

  /** Where the interactive transaction stands in the engine's contract. */
  datatype Stage = Starting | Started | Running | Returned | Committing | Committed | Abandoned

  /** The connection checkout made by `ownedPool.getConnection` for this attempt. */
  datatype Checkout = Acquiring | Configuring(settings: nat) | Handed | Releasing | Idle | Dead

  const SETTINGS: nat := 3

  /** `TransactionState`, shared by the runner and the adapter. */
  datatype State = State(closed: bool, commitStarted: bool, rollbackConfirmed: bool, failure: Option<Failure>,
                         abortInstalled: bool)

  /** The promises and the timer of `run`. */
  datatype Caller = Caller(deadlineArmed: bool, work: Option<Outcome>, race: Option<Outcome>, told: Option<Outcome>)

  /** The engine's side, with counts of what was submitted to the driver. */
  datatype Engine = Engine(stage: Stage, entered: bool, rollingBack: bool, commits: nat, acknowledged: bool, queries: nat)

  datatype Lease = Lease(checkout: Checkout, owned: bool, connection: nat, destroyed: bool)

  datatype Attempt = Attempt(id: nat, writable: bool, state: State, caller: Caller, engine: Engine, lease: Lease)

  function Fresh(id: nat, writable: bool): Attempt {
    Attempt(id, writable,
            State(false, false, false, None, false),
            Caller(true, None, None, None),
            Engine(Starting, false, false, 0, false, 0),
            Lease(Acquiring, false, 0, false))
  }

  datatype Event =
    | AcquireResolved(connection: nat)
    | AcquireRejected
    | SettingResolved
    | SettingRejected
    | StartResolved
    | EnterCallback
    | OperationReturned
    | OperationThrew
    | QueryCalled
    | CommitCalled
    | CommitAcked
    | CommitRejected
    | RollbackCalled
    | RollbackAcked
    | RollbackRejected
    | ReleaseCalled
    | ReleaseFinished
    | StatementTimer
    | DeadlineTimer
    | WorkResolved
    | WorkRejected(error: Error)
    | Continue

  // ---- The closures and guards of the two source files ----

  /** `abort` of one checkout: destroys the connection only while the checkout owns it. */
  function Destroy(l: Lease): Lease {
    if l.owned then l.(owned := false, destroyed := true) else l
  }

  /** `state.abort?.()` */
  function FireAbort(s: State, l: Lease): Lease {
    if s.abortInstalled then Destroy(l) else l
  }

  /** The catch clause of `run`: what the caller is told about a rejected race. */
  function Classify(a: Attempt, e: Error): Error {
    if a.state.commitStarted then CommitOutcomeUnknown(a.id)
    else if a.state.failure.Some? then Unavailable(a.id, a.state.failure.value)
    else if !a.engine.entered && AcquisitionCode(e) then Unavailable(a.id, Acquisition)
    else e
  }

  /** The catch clause reaches its bookkeeping only when it rethrows the very error. */
  predicate Rethrows(a: Attempt, e: Error) {
    !a.state.commitStarted && a.state.failure.None? && !(!a.engine.entered && AcquisitionCode(e))
  }

  /** catch and finally of `run`, one synchronous segment. */
  function Finish(a: Attempt): Attempt
    requires a.caller.race.Some?
  {
    var outcome := match a.caller.race.value
      case Succeeded => Succeeded
      case Failed(e) => Failed(Classify(a, e));
    a.(state := a.state.(closed := true, abortInstalled := false),
       caller := a.caller.(deadlineArmed := false, told := Some(outcome)),
       lease := FireAbort(a.state, a.lease))
  }

  /** `Promise.race`: the first settlement stays. */
  function Race(c: Caller, outcome: Outcome): Option<Outcome> {
    if c.race.None? then Some(outcome) else c.race
  }

  // ---- The step relation ----

  /** Assumed of the engine and the driver.  `commit` follows only a callback that returned and is
      called once; `commit` and `rollback` settle only when the connection is no longer owned, because the
      driver ends either of them with `release`; the transaction promise resolves only after an acknowledged
      commit and settles once.  Timers, rejections, rollbacks and a late acquisition may come at any moment,
      which is more than the real schedule allows. */
  predicate Enabled(a: Attempt, e: Event) {
    match e
    case AcquireResolved(_) => a.lease.checkout.Acquiring?
    case AcquireRejected => a.lease.checkout.Acquiring?
    case SettingResolved => a.lease.checkout.Configuring?
    case SettingRejected => a.lease.checkout.Configuring?
    case StartResolved => a.engine.stage.Starting? && !a.lease.checkout.Acquiring? && !a.lease.checkout.Configuring?
    case EnterCallback => a.engine.stage.Started?
    case OperationReturned => a.engine.stage.Running?
    case OperationThrew => a.engine.stage.Running?
    case QueryCalled => !a.engine.stage.Starting?
    case CommitCalled => a.engine.stage.Returned?
    case CommitAcked => a.engine.stage.Committing? && !a.lease.owned
    case CommitRejected => a.engine.stage.Committing? && !a.lease.owned
    case RollbackCalled => !a.engine.stage.Starting? && !a.engine.rollingBack
    case RollbackAcked => a.engine.rollingBack && !a.lease.owned
    case RollbackRejected => a.engine.rollingBack && !a.lease.owned
    case ReleaseCalled => a.lease.checkout.Handed?
    case ReleaseFinished => a.lease.checkout.Releasing?
    case StatementTimer => true
    case DeadlineTimer => a.caller.deadlineArmed
    case WorkResolved => a.caller.work.None? && a.engine.stage.Committed?
    case WorkRejected(_) => a.caller.work.None?
    case Continue => a.caller.race.Some? && a.caller.told.None?
  }

  function Next(a: Attempt, e: Event): Attempt
    requires Enabled(a, e)
  {
    var s, c, g, l := a.state, a.caller, a.engine, a.lease;
    match e
    case AcquireResolved(k) =>
      var taken := l.(connection := k, owned := true);
      a.(state := s.(abortInstalled := true),
         lease := if s.closed then Destroy(taken).(checkout := Dead) else taken.(checkout := Configuring(0)))
    case AcquireRejected => a.(state := s.(failure := Some(Acquisition)), lease := l.(checkout := Dead))
    case SettingResolved =>
      a.(lease := if s.closed then Destroy(l).(checkout := Dead)
                  else if l.checkout.settings + 1 >= SETTINGS then l.(checkout := Handed)
                  else l.(checkout := Configuring(l.checkout.settings + 1)))
    case SettingRejected => a.(lease := Destroy(l).(checkout := Dead))
    case StartResolved => a.(engine := if s.closed then g.(stage := Abandoned, rollingBack := true) else g.(stage := Started))
    case EnterCallback => a.(engine := g.(entered := true, stage := if s.closed then Abandoned else Running))
    case OperationReturned => a.(engine := g.(stage := if s.closed then Abandoned else Returned))
    case OperationThrew => a.(engine := g.(stage := Abandoned))
    case QueryCalled => if s.closed then a else a.(engine := g.(queries := g.queries + 1))
    case CommitCalled =>
      if s.closed then a.(engine := g.(stage := Abandoned, rollingBack := true))
      else a.(state := s.(commitStarted := true), engine := g.(stage := Committing, commits := g.commits + 1))
    case CommitAcked => a.(state := s.(abortInstalled := false), engine := g.(stage := Committed, acknowledged := true))
    case CommitRejected => a.(state := s.(abortInstalled := false), engine := g.(stage := Abandoned))
    case RollbackCalled => a.(engine := g.(rollingBack := true))
    case RollbackAcked => a.(state := s.(rollbackConfirmed := true, abortInstalled := false), engine := g.(rollingBack := false))
    case RollbackRejected => a.(state := s.(abortInstalled := false), engine := g.(rollingBack := false))
    case ReleaseCalled => a.(state := s.(abortInstalled := false), lease := l.(owned := false, checkout := Releasing))
    case ReleaseFinished => a.(lease := l.(checkout := Idle))
    case StatementTimer =>
      a.(state := s.(failure := Some(StatementTimeout), closed := true), lease := FireAbort(s, l))
    case DeadlineTimer =>
      a.(state := s.(closed := true),
         caller := c.(deadlineArmed := false, race := Race(c, Failed(Unavailable(a.id, TransactionTimeout)))),
         lease := FireAbort(s, l))
    case WorkResolved => a.(caller := c.(work := Some(Succeeded), race := Race(c, Succeeded)))
    case WorkRejected(error) => a.(caller := c.(work := Some(Failed(error)), race := Race(c, Failed(error))))
    case Continue => Finish(a)
  }

  // ---- Safety of a single attempt ----

  /** What was submitted to the driver agrees with the flag the catch clause reads. */
  ghost predicate EngineInv(s: State, g: Engine) {
    && g.commits == (if s.commitStarted then 1 else 0)
    && (g.stage.Starting? || g.stage.Started? || g.stage.Running? || g.stage.Returned? ==> !s.commitStarted)
    && (g.stage.Committing? || g.stage.Committed? ==> s.commitStarted)
    && g.stage.Committed? == g.acknowledged
  }

  /** An owned connection can always be reached by the abort handle, and by nobody else's. */
  ghost predicate LeaseInv(s: State, l: Lease) {
    && (l.owned ==> s.abortInstalled && !l.destroyed && (l.checkout.Configuring? || l.checkout.Handed?))
    && (l.checkout.Configuring? || l.checkout.Handed? ==> l.owned != l.destroyed)
    && (l.checkout.Acquiring? ==> !l.owned && !l.destroyed)
    && (l.checkout.Releasing? ==> !l.owned)
  }

  /** What the caller has been told is the truth, and nothing is left running on its behalf. */
  ghost predicate CallerInv(a: Attempt) {
    var s, c := a.state, a.caller;
    && (c.work == Some(Succeeded) ==> a.engine.acknowledged)
    && (c.race == Some(Succeeded) ==> c.work == Some(Succeeded))
    && (c.race.Some? && c.race.value.Failed? ==>
          c.race.value.error == Unavailable(a.id, TransactionTimeout) || c.work == c.race)
    && (c.told.Some? ==> c.race.Some? && s.closed && !c.deadlineArmed && !a.lease.owned)
    && (c.told.Some? ==> c.told.value.Succeeded? == c.race.value.Succeeded?)
    && (c.told.Some? && c.told.value.Failed? ==>
          c.told.value.error == CommitOutcomeUnknown(a.id) || !s.commitStarted)
    && (c.told == Some(Failed(CommitOutcomeUnknown(a.id))) ==> s.commitStarted || c.work == c.told)
  }

  ghost predicate Inv(a: Attempt) {
    EngineInv(a.state, a.engine) && LeaseInv(a.state, a.lease) && CallerInv(a)
  }

  lemma EngineKept(a: Attempt, e: Event)
    requires EngineInv(a.state, a.engine) && Enabled(a, e)
    ensures EngineInv(Next(a, e).state, Next(a, e).engine)
  {
  }

  lemma LeaseKept(a: Attempt, e: Event)
    requires LeaseInv(a.state, a.lease) && Enabled(a, e)
    ensures LeaseInv(Next(a, e).state, Next(a, e).lease)
  {
  }

  lemma CallerKept(a: Attempt, e: Event)
    requires Inv(a) && Enabled(a, e)
    ensures CallerInv(Next(a, e))
  {
  }

  lemma StepInv(a: Attempt, e: Event)
    requires Inv(a) && Enabled(a, e)
    ensures Inv(Next(a, e))
  {
    hide *;
    Parts(a);
    EngineKept(a, e);
    LeaseKept(a, e);
    CallerKept(a, e);
    Parts(Next(a, e));
  }

  lemma Parts(a: Attempt)
    ensures Inv(a) <==> EngineInv(a.state, a.engine) && LeaseInv(a.state, a.lease) && CallerInv(a)
  {
    hide EngineInv, LeaseInv, CallerInv;
  }

  /** A caller is told once, and from then on nothing new is submitted or acquired. */
  lemma ToldIsFinal(a: Attempt, e: Event)
    requires Inv(a) && Enabled(a, e) && a.caller.told.Some?
    ensures var b := Next(a, e);
      && b.caller.told == a.caller.told
      && b.state.commitStarted == a.state.commitStarted
      && b.engine.commits == a.engine.commits
      && b.engine.queries == a.engine.queries
      && (b.lease.checkout.Handed? ==> a.lease.checkout.Handed?)
  {
  }

  /** A checkout reaches the engine only in a segment in which the transaction is still open; one that
      arrives for a closed transaction is destroyed on the spot. */
  lemma HandedOnlyWhileOpen(a: Attempt, e: Event)
    requires Inv(a) && Enabled(a, e)
    ensures var b := Next(a, e);
      && (b.lease.checkout.Handed? && !a.lease.checkout.Handed? ==> !a.state.closed && !b.state.closed)
      && (e.AcquireResolved? && a.state.closed ==> b.lease.destroyed && !b.lease.owned && b.lease.checkout.Dead?)
  {
  }

  /** Once a checkout has been given back no event of its transaction destroys a connection. */
  lemma GivenBackIsDisarmed(a: Attempt, e: Event)
    requires Inv(a) && Enabled(a, e) && !a.lease.owned && !a.lease.checkout.Acquiring?
    ensures Next(a, e).lease.destroyed == a.lease.destroyed
    ensures !Next(a, e).lease.owned && !Next(a, e).lease.checkout.Acquiring?
  {
  }

  predicate Possible(a: Attempt, es: seq<Event>)
    decreases |es|
  {
    es == [] || (Enabled(a, es[0]) && Possible(Next(a, es[0]), es[1..]))
  }

  function After(a: Attempt, es: seq<Event>): Attempt
    requires Possible(a, es)
    decreases |es|
  {
    if es == [] then a else After(Next(a, es[0]), es[1..])
  }

  lemma {:induction false} RunInv(a: Attempt, es: seq<Event>)
    requires Inv(a) && Possible(a, es)
    ensures Inv(After(a, es))
    decreases |es|
  {
    if es == [] {
    } else {
      StepInv(a, es[0]);
      RunInv(Next(a, es[0]), es[1..]);
    }
  }

  lemma {:induction false} ToldStays(a: Attempt, es: seq<Event>)
    requires Inv(a) && Possible(a, es) && a.caller.told.Some?
    ensures var b := After(a, es);
      b.caller.told == a.caller.told && b.engine.commits == a.engine.commits && b.engine.queries == a.engine.queries
    decreases |es|
  {
    if es == [] {
    } else {
      StepInv(a, es[0]);
      ToldIsFinal(a, es[0]);
      ToldStays(Next(a, es[0]), es[1..]);
    }
  }

  /** Once a checkout has been given back, no later schedule destroys a connection or owns the checkout again. */
  lemma {:induction false} GivenBackStays(a: Attempt, es: seq<Event>)
    requires Inv(a) && Possible(a, es) && !a.lease.owned && !a.lease.checkout.Acquiring?
    ensures After(a, es).lease.destroyed == a.lease.destroyed && !After(a, es).lease.owned
    decreases |es|
  {
    if es == [] {
    } else {
      StepInv(a, es[0]);
      GivenBackIsDisarmed(a, es[0]);
      GivenBackStays(Next(a, es[0]), es[1..]);
    }
  }

  lemma ClosedStep(a: Attempt, e: Event)
    requires Inv(a) && Enabled(a, e) && a.state.closed
    ensures var b := Next(a, e);
      && b.state.closed && b.engine.commits == a.engine.commits && b.engine.queries == a.engine.queries
      && (b.lease.checkout.Handed? ==> a.lease.checkout.Handed?)
  {
  }

  /** Once a timer or the answer has closed a transaction, no later schedule submits a statement or a commit or hands
      out its checkout. */
  lemma {:induction false} ClosedStays(a: Attempt, es: seq<Event>)
    requires Inv(a) && Possible(a, es) && a.state.closed
    ensures var b := After(a, es);
      && b.state.closed && b.engine.commits == a.engine.commits && b.engine.queries == a.engine.queries
      && (b.lease.checkout.Handed? ==> a.lease.checkout.Handed?)
    decreases |es|
  {
    if es == [] {
    } else {
      StepInv(a, es[0]);
      ClosedStep(a, es[0]);
      ClosedStays(Next(a, es[0]), es[1..]);
    }
  }

  /** The callback has got as far as returning. */
  predicate HasReturned(a: Attempt) {
    a.engine.stage.Returned? || a.engine.stage.Committing? || a.engine.stage.Committed? || a.engine.commits > 0
  }

  predicate HasStarted(a: Attempt) {
    HasReturned(a) || a.engine.stage.Running?
  }

  lemma ProgressStep(a: Attempt, e: Event)
    requires Inv(a) && Enabled(a, e)
    ensures !HasReturned(a) && HasReturned(Next(a, e)) ==> e.OperationReturned? && HasStarted(a) && !a.state.closed
    ensures !HasStarted(a) && HasStarted(Next(a, e)) ==> e.EnterCallback? && !a.state.closed
  {
  }

  /** A commit is submitted only for a callback that was entered and whose operation then returned. */
  lemma {:induction false} CommitNeedsReturn(a: Attempt, es: seq<Event>)
    requires Inv(a) && Possible(a, es) && !HasReturned(a) && After(a, es).engine.commits > 0
    ensures OperationReturned in es && (!HasStarted(a) ==> EnterCallback in es)
    decreases |es|
  {
    if es == [] {
    } else {
      StepInv(a, es[0]);
      ProgressStep(a, es[0]);
      var b := Next(a, es[0]);
      if HasReturned(b) {
        assert es[0] == OperationReturned;
      } else {
        CommitNeedsReturn(b, es[1..]);
        assert forall e :: e in es[1..] ==> e in es;
        if HasStarted(b) && !HasStarted(a) {
          assert es[0] == EnterCallback;
        }
      }
    }
  }

  /** For every schedule `es` up to the answer and every schedule `later` after it: a failure other than the
      attempt's own `commit_outcome_unknown` means that no commit ever reaches the driver, and a success means
      that exactly one did and was acknowledged. */
  lemma AnswerIsTrue(id: nat, writable: bool, es: seq<Event>, later: seq<Event>)
    requires Possible(Fresh(id, writable), es)
    requires Possible(After(Fresh(id, writable), es), later)
    requires After(Fresh(id, writable), es).caller.told.Some?
    ensures var told := After(Fresh(id, writable), es).caller.told.value;
      var end := After(After(Fresh(id, writable), es), later);
      && end.caller.told == Some(told)
      && end.engine.commits <= 1
      && !end.lease.owned
      && (told.Failed? && told.error != CommitOutcomeUnknown(id) ==> end.engine.commits == 0)
      && (told.Succeeded? ==> end.engine.commits == 1 && end.engine.acknowledged)
      && (told == Failed(CommitOutcomeUnknown(id)) && end.caller.work != Some(told) ==> end.engine.commits == 1)
  {
    var a := After(Fresh(id, writable), es);
    RunInv(Fresh(id, writable), es);
    RunInv(a, later);
    ToldStays(a, later);
    IdStays(Fresh(id, writable), es);
    IdStays(a, later);
  }

  lemma {:induction false} IdStays(a: Attempt, es: seq<Event>)
    requires Possible(a, es)
    ensures After(a, es).id == a.id && After(a, es).writable == a.writable
    decreases |es|
  {
    if es == [] {
    } else {
      IdStays(Next(a, es[0]), es[1..]);
    }
  }
}
