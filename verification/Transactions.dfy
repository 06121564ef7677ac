/** The mutable objects behind the step relation: the state that `run` shares with the adapter, and
    the `Transactions` object with its admission counter, its error sets and the retry loop. */
module Transactions {
  import opened TransactionAttempt
  import opened Wrappers

  class Run {
    const id: nat
    const writable: bool
    var closed: bool
    var commitStarted: bool
    var rollbackConfirmed: bool
    var failure: Option<Failure>
    var abortInstalled: bool
    var caller: Caller
    var engine: Engine
    var checkout: Checkout
    var owned: bool
    var connection: nat
    var destroyed: bool

    function View(): Attempt
      reads this
    {
      Attempt(id, writable, State(closed, commitStarted, rollbackConfirmed, failure, abortInstalled), caller, engine,
              Lease(checkout, owned, connection, destroyed))
    }

    constructor (id: nat, writable: bool)
      ensures View() == Fresh(id, writable)
    {
      this.id, this.writable := id, writable;
      closed, commitStarted, rollbackConfirmed, failure, abortInstalled := false, false, false, None, false;
      caller, engine := Caller(true, None, None, None), Engine(Starting, false, false, 0, false, 0);
      checkout, owned, connection, destroyed := Acquiring, false, 0, false;
    }

    /** The `abort` closure of the checkout. */
    method Abort()
      modifies this`owned, this`destroyed
      ensures Lease(checkout, owned, connection, destroyed) == Destroy(old(Lease(checkout, owned, connection, destroyed)))
    {
      if owned {
        owned, destroyed := false, true;
      }
    }

    method InstalledAbort()
      modifies this`owned, this`destroyed
      ensures View().lease == FireAbort(old(View().state), old(View().lease))
    {
      if abortInstalled {
        Abort();
      }
    }

    method Acquired(k: nat)
      requires Enabled(View(), AcquireResolved(k))
      modifies this
      ensures View() == Next(old(View()), AcquireResolved(k))
    {
      connection, owned, abortInstalled := k, true, true;
      if closed {
        Abort();
        checkout := Dead;
      } else {
        checkout := Configuring(0);
      }
    }

    method AcquisitionFailed()
      requires Enabled(View(), AcquireRejected)
      modifies this
      ensures View() == Next(old(View()), AcquireRejected)
    {
      failure, checkout := Some(Acquisition), Dead;
    }

    method SettingEnded(resolved: bool)
      requires Enabled(View(), if resolved then SettingResolved else SettingRejected)
      modifies this
      ensures View() == Next(old(View()), if resolved then SettingResolved else SettingRejected)
    {
      if closed || !resolved {
        Abort();
        checkout := Dead;
      } else if checkout.settings + 1 >= SETTINGS {
        checkout := Handed;
      } else {
        checkout := Configuring(checkout.settings + 1);
      }
    }

    method Release()
      requires Enabled(View(), ReleaseCalled)
      modifies this
      ensures View() == Next(old(View()), ReleaseCalled)
    {
      owned := false;
      abortInstalled := false;
      checkout := Releasing;
    }

    method ReleaseEnded()
      requires Enabled(View(), ReleaseFinished)
      modifies this
      ensures View() == Next(old(View()), ReleaseFinished)
    {
      checkout := Idle;
    }

    method StatementExpired()
      modifies this
      ensures View() == Next(old(View()), StatementTimer)
    {
      failure := Some(StatementTimeout);
      closed := true;
      InstalledAbort();
    }

    method DeadlineExpired()
      requires Enabled(View(), DeadlineTimer)
      modifies this
      ensures View() == Next(old(View()), DeadlineTimer)
    {
      closed := true;
      InstalledAbort();
      caller := caller.(deadlineArmed := false, race := Race(caller, Failed(Unavailable(id, TransactionTimeout))));
    }

    method StartEnded()
      requires Enabled(View(), StartResolved)
      modifies this
      ensures View() == Next(old(View()), StartResolved)
    {
      if closed {
        engine := engine.(stage := Abandoned, rollingBack := true);
      } else {
        engine := engine.(stage := Started);
      }
    }

    method BeforeOperation()
      requires Enabled(View(), EnterCallback)
      modifies this
      ensures View() == Next(old(View()), EnterCallback)
    {
      engine := engine.(entered := true);
      engine := engine.(stage := if closed then Abandoned else Running);
    }

    method AfterOperation(returned: bool)
      requires Enabled(View(), if returned then OperationReturned else OperationThrew)
      modifies this
      ensures View() == Next(old(View()), if returned then OperationReturned else OperationThrew)
    {
      engine := engine.(stage := if closed || !returned then Abandoned else Returned);
    }

    method Query() returns (submitted: bool)
      requires Enabled(View(), QueryCalled)
      modifies this
      ensures View() == Next(old(View()), QueryCalled)
      ensures submitted == !old(closed)
    {
      submitted := !closed;
      if submitted {
        engine := engine.(queries := engine.queries + 1);
      }
    }

    method Commit()
      requires Enabled(View(), CommitCalled)
      modifies this
      ensures View() == Next(old(View()), CommitCalled)
    {
      if closed {
        engine := engine.(stage := Abandoned, rollingBack := true);
      } else {
        commitStarted := true;
        engine := engine.(stage := Committing, commits := engine.commits + 1);
      }
    }

    method CommitEnded(acknowledged: bool)
      requires Enabled(View(), if acknowledged then CommitAcked else CommitRejected)
      modifies this
      ensures View() == Next(old(View()), if acknowledged then CommitAcked else CommitRejected)
    {
      if acknowledged {
        engine := engine.(stage := Committed, acknowledged := true);
      } else {
        engine := engine.(stage := Abandoned);
      }
      abortInstalled := false;
    }

    method RollbackBegins()
      requires Enabled(View(), RollbackCalled)
      modifies this
      ensures View() == Next(old(View()), RollbackCalled)
    {
      engine := engine.(rollingBack := true);
    }

    method RollbackEnded(acknowledged: bool)
      requires Enabled(View(), if acknowledged then RollbackAcked else RollbackRejected)
      modifies this
      ensures View() == Next(old(View()), if acknowledged then RollbackAcked else RollbackRejected)
    {
      if acknowledged {
        rollbackConfirmed := true;
      }
      abortInstalled := false;
      engine := engine.(rollingBack := false);
    }

    /** The transaction promise settles, and with it the race unless the deadline came first. */
    method WorkEnded(outcome: Outcome)
      requires Enabled(View(), if outcome.Succeeded? then WorkResolved else WorkRejected(outcome.error))
      modifies this
      ensures View() == Next(old(View()), if outcome.Succeeded? then WorkResolved else WorkRejected(outcome.error))
    {
      caller := caller.(work := Some(outcome), race := Race(caller, outcome));
    }

    /** The catch and finally clauses; `rethrown` is the error when the clause reaches its bookkeeping. */
    method Finish() returns (outcome: Outcome, rethrown: Option<Error>)
      requires Enabled(View(), Continue)
      modifies this
      ensures View() == Next(old(View()), Continue)
      ensures caller.told == Some(outcome)
      ensures rethrown == RethrownBy(old(View()))
    {
      outcome, rethrown := Succeeded, None;
      if caller.race.value.Failed? {
        var error := caller.race.value.error;
        if commitStarted {
          outcome := Failed(CommitOutcomeUnknown(id));
        } else if failure.Some? {
          outcome := Failed(Unavailable(id, failure.value));
        } else if !engine.entered && AcquisitionCode(error) {
          outcome := Failed(Unavailable(id, Acquisition));
        } else {
          outcome, rethrown := Failed(error), Some(error);
        }
      }
      closed := true;
      InstalledAbort();
      abortInstalled := false;
      caller := caller.(deadlineArmed := false, told := Some(outcome));
    }

    /** The segment that an event triggers; `rethrown` is the error of a catch clause that reaches its bookkeeping. */
    method Handle(e: Event) returns (rethrown: Option<Error>)
      requires Enabled(View(), e)
      modifies this
      ensures View() == Next(old(View()), e)
      ensures rethrown == if e.Continue? then RethrownBy(old(View())) else None
    {
      hide Enabled, Next;
      rethrown := None;
      match e {
        case AcquireResolved(k) => Acquired(k);
        case AcquireRejected => AcquisitionFailed();
        case SettingResolved => SettingEnded(true);
        case SettingRejected => SettingEnded(false);
        case StartResolved => StartEnded();
        case EnterCallback => BeforeOperation();
        case OperationReturned => AfterOperation(true);
        case OperationThrew => AfterOperation(false);
        case QueryCalled => var submitted := Query();
        case CommitCalled => Commit();
        case CommitAcked => CommitEnded(true);
        case CommitRejected => CommitEnded(false);
        case RollbackCalled => RollbackBegins();
        case RollbackAcked => RollbackEnded(true);
        case RollbackRejected => RollbackEnded(false);
        case ReleaseCalled => Release();
        case ReleaseFinished => ReleaseEnded();
        case StatementTimer => StatementExpired();
        case DeadlineTimer => DeadlineExpired();
        case WorkResolved => WorkEnded(Succeeded);
        case WorkRejected(error) => WorkEnded(Failed(error));
        case Continue =>
          var outcome: Outcome;
          outcome, rethrown := Finish();
      }
    }
  }

  /** The error with which the catch clause of an attempt reaches its bookkeeping, if it does. */
  function RethrownBy(a: Attempt): Option<Error>
    requires a.caller.race.Some?
  {
    match a.caller.race.value
    case Succeeded => None
    case Failed(error) => if Rethrows(a, error) then Some(error) else None
  }

  /** What an event adds to the rolled-back errors, or to the retryable ones. */
  function Noted(a: Attempt, e: Event, retryable: bool): set<Error>
    requires Enabled(a, e)
  {
    if e.Continue? && RethrownBy(a).Some? && a.state.rollbackConfirmed
       && (retryable ==> a.writable && LockFailure(RethrownBy(a).value))
    then {RethrownBy(a).value} else {}
  }

  /** An attempt that ended, with whatever schedule it went through. */
  ghost predicate Ended(a: Attempt) {
    Inv(a) && a.caller.told.Some? && a.writable
  }

  predicate Refused(a: Attempt) {
    a.caller.told.Some? && a.caller.told.value.Failed?
  }

  function Submitted(ends: nat -> Option<Attempt>, n: nat): nat {
    if n == 0 then 0
    else Submitted(ends, n - 1) + (match ends(n - 1) case Some(a) => a.engine.commits case None => 0)
  }

  class Transactions {
    const maxPending: nat
    var pending: nat
    var retryable: set<Error>
    var rolledBack: set<Error>

    ghost predicate Valid()
      reads this
    {
      pending <= maxPending && forall e :: e in retryable ==> LockFailure(e) && e in rolledBack
    }

    constructor (maxPending: nat)
      requires maxPending >= 1
      ensures Valid() && pending == 0 && retryable == rolledBack == {} && this.maxPending == maxPending
    {
      this.maxPending, pending, retryable, rolledBack := maxPending, 0, {}, {};
    }

    method Admit() returns (admitted: bool)
      requires Valid()
      modifies this`pending
      ensures Valid() && admitted == (old(pending) < maxPending)
      ensures pending == old(pending) + (if admitted then 1 else 0)
    {
      admitted := pending < maxPending;
      if admitted {
        pending := pending + 1;
      }
    }

    method Settled()
      requires Valid() && pending > 0
      modifies this`pending
      ensures Valid() && pending == old(pending) - 1
    {
      pending := pending - 1;
    }

    /** The bookkeeping of the catch clause of `run`. */
    method Remember(writable: bool, rollbackConfirmed: bool, error: Error)
      requires Valid()
      modifies this`retryable, this`rolledBack
      ensures Valid()
      ensures rolledBack == old(rolledBack) + (if rollbackConfirmed then {error} else {})
      ensures retryable == old(retryable) + (if writable && rollbackConfirmed && LockFailure(error) then {error} else {})
    {
      if rollbackConfirmed {
        rolledBack := rolledBack + {error};
      }
      if writable && rollbackConfirmed && LockFailure(error) {
        retryable := retryable + {error};
      }
    }

    /** `retryable.delete(error)` */
    method Forget(error: Error) returns (retry: bool)
      requires Valid()
      modifies this`retryable
      ensures Valid() && retry == (error in old(retryable)) && retryable == old(retryable) - {error}
    {
      retry := error in retryable;
      retryable := retryable - {error};
    }

    /** The retry loop of `write`.  Try `n` is refused admission if `ends(n)` is `None`, and else ends as that attempt,
        an arbitrary ended one whose catch clause has just run; nothing else is assumed about it. */
    method Write(ends: nat -> Option<Attempt>) returns (outcome: Outcome, tries: nat)
      requires Valid()
      requires forall n :: ends(n).Some? ==> Ended(ends(n).value)
      modifies this`retryable, this`rolledBack
      ensures Valid()
      ensures 1 <= tries <= 3
      ensures ends(tries - 1).Some? ==> ends(tries - 1).value.caller.told == Some(outcome)
      ensures ends(tries - 1).None? ==> outcome == Failed(Unavailable(tries - 1, Admission))
      ensures forall n :: 0 <= n < tries - 1 ==> ends(n).Some? && Refused(ends(n).value) && ends(n).value.engine.commits == 0
      ensures Submitted(ends, tries) <= 1
      ensures outcome.Succeeded? ==> Submitted(ends, tries) == 1 && ends(tries - 1).value.engine.acknowledged
      ensures outcome.Failed? && !outcome.error.CommitOutcomeUnknown? ==> Submitted(ends, tries) == 0
    {
      tries := 0;
      while true
        invariant Valid()
        invariant 0 <= tries <= 2
        invariant forall n :: 0 <= n < tries ==> ends(n).Some? && Refused(ends(n).value) && ends(n).value.engine.commits == 0
        invariant Submitted(ends, tries) == 0
        decreases 3 - tries
      {
        var end := ends(tries);
        tries := tries + 1;
        if end.None? {
          outcome := Failed(Unavailable(tries - 1, Admission));
        } else {
          var attempt := end.value;
          assert Ended(attempt);
          outcome := attempt.caller.told.value;
          if outcome.Succeeded? {
            return;
          }
          var error := attempt.caller.race.value.error;
          if Rethrows(attempt, error) {
            Remember(attempt.writable, attempt.state.rollbackConfirmed, error);
          }
        }
        var retry := Forget(outcome.error);
        if tries - 1 >= 2 || !retry {
          return;
        }
      }
    }
  }
}
