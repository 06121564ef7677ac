/** The objects behind the system: the runs, the `Transactions` object and the pool's connections, which change just
    as the system steps. */
module Database {
  import opened TransactionAttempt
  import opened Wrappers
  import Runner = Transactions
  import S = TransactionSystem

  class Database {
    const transactions: Runner.Transactions
    var runs: seq<Runner.Run>
    var writes: seq<S.Write>
    var connections: seq<S.Connection>
    ghost var thrown: set<Error>
    ghost var reused: bool
    ghost var Repr: set<object>

    ghost function Attempts(): seq<Attempt>
      reads `runs, runs
    {
      var all := runs;
      seq(|all|, i requires 0 <= i < |all| reads all => all[i].View())
    }

    ghost function View(): S.System
      reads this, transactions, runs
    {
      S.System(Attempts(), writes, connections, transactions.pending, transactions.maxPending,
               transactions.retryable, transactions.rolledBack, thrown, reused)
    }

    ghost predicate Separate()
      reads `runs, `Repr
    {
      && this in Repr && transactions in Repr && (forall i :: 0 <= i < |runs| ==> runs[i] in Repr)
      && forall i, j :: 0 <= i < j < |runs| ==> runs[i] != runs[j]
    }

    ghost predicate Valid()
      reads this, transactions, runs
    {
      Separate() && transactions.Valid() && S.SystemInv(View())
    }

    constructor (maxPending: nat)
      requires maxPending >= 1
      ensures Valid() && View() == S.Initial(maxPending) && fresh(Repr)
    {
      transactions := new Runner.Transactions(maxPending);
      runs, writes, connections := [], [], [];
      thrown, reused := {}, false;
      Repr := {this, transactions};
    }

    /** What the end of a work and a rethrown error do to the counter and the sets. */
    method Account(a: Attempt, e: Event, rethrown: Option<Error>)
      requires transactions.Valid() && Enabled(a, e) && (a.caller.work.None? ==> transactions.pending > 0)
      requires rethrown == if e.Continue? then Runner.RethrownBy(a) else None
      modifies transactions
      ensures transactions.Valid()
      ensures transactions.pending == old(transactions.pending) - (if e.WorkResolved? || e.WorkRejected? then 1 else 0)
      ensures transactions.rolledBack == old(transactions.rolledBack) + Runner.Noted(a, e, false)
      ensures transactions.retryable == old(transactions.retryable) + Runner.Noted(a, e, true)
    {
      if e.WorkResolved? || e.WorkRejected? {
        transactions.Settled();
      }
      if rethrown.Some? {
        transactions.Remember(a.writable, a.state.rollbackConfirmed, rethrown.value);
      }
    }

    /** One event of one run; the others do not move. */
    method Move(i: nat, e: Event) returns (rethrown: Option<Error>)
      requires Separate() && i < |runs| && Enabled(runs[i].View(), e)
      modifies runs[i]
      ensures Attempts() == old(Attempts())[i := Next(old(runs[i].View()), e)]
      ensures rethrown == if e.Continue? then Runner.RethrownBy(old(runs[i].View())) else None
    {
      hide Next, Enabled, Runner.RethrownBy, Runner.Run.View;
      ghost var before := Attempts();
      rethrown := runs[i].Handle(e);
      assert forall j :: 0 <= j < |runs| && j != i ==> runs[j] != runs[i] && runs[j].View() == before[j];
    }

    /** One event of one run, with what it does to the admission counter, the error sets and the pool. */
    method Local(i: nat, e: Event)
      requires Valid() && S.Allowed(View(), S.Local(i, e))
      modifies this`connections, this`thrown, this`reused, transactions, runs
      ensures Separate() && transactions.Valid()
      ensures View() == S.Apply(old(View()), S.Local(i, e))
    {
      hide *;
      LocalReady(i, e);
      var a := runs[i].View();
      var rethrown := Move(i, e);
      Note(i, e, a, rethrown);
      ViewIs();
    }

    lemma LocalReady(i: nat, e: Event)
      requires Valid() && S.Allowed(View(), S.Local(i, e))
      ensures i < |runs| && Enabled(runs[i].View(), e) && Separate() && transactions.Valid()
      ensures runs[i].View().caller.work.None? ==> transactions.pending > 0
      ensures e.AcquireResolved? ==> e.connection <= |connections|
      ensures transactions.pending >= (if e.WorkResolved? || e.WorkRejected? then 1 else 0)
      ensures var a := runs[i].View();
        S.Apply(View(), S.Local(i, e)) == S.System(
          Attempts()[i := Next(a, e)], writes, S.Connect(connections, i, a, e, Next(a, e)),
          transactions.pending - (if e.WorkResolved? || e.WorkRejected? then 1 else 0), transactions.maxPending,
          transactions.retryable + Runner.Noted(a, e, true), transactions.rolledBack + Runner.Noted(a, e, false),
          if e.WorkRejected? then thrown + {e.error} else thrown,
          reused || (e.WorkRejected? && (!e.error.Thrown? || e.error in thrown)))
    {
      S.PendingOf(View(), i);
      WorkEndsOnce(runs[i].View(), e);
      hide S.SystemInv, Next, S.Connect, S.Remembered, S.Apply, Runner.Noted, Runner.Transactions.Valid;
      LocalParts(View(), i, e, runs[i].View());
    }

    lemma ViewIs()
      ensures View() == S.System(Attempts(), writes, connections, transactions.pending, transactions.maxPending,
                                 transactions.retryable, transactions.rolledBack, thrown, reused)
    {
    }

    /** What is noted of an event outside its run. */
    method Note(i: nat, e: Event, a: Attempt, rethrown: Option<Error>)
      requires transactions.Valid() && Enabled(a, e) && (a.caller.work.None? ==> transactions.pending > 0)
      requires (e.AcquireResolved? ==> e.connection <= |connections|)
      requires rethrown == if e.Continue? then Runner.RethrownBy(a) else None
      modifies this`connections, this`thrown, this`reused, transactions
      ensures transactions.Valid() && Attempts() == old(Attempts())
      ensures connections == S.Connect(old(connections), i, a, e, Next(a, e))
      ensures transactions.pending == old(transactions.pending) - (if e.WorkResolved? || e.WorkRejected? then 1 else 0)
      ensures transactions.rolledBack == old(transactions.rolledBack) + Runner.Noted(a, e, false)
      ensures transactions.retryable == old(transactions.retryable) + Runner.Noted(a, e, true)
      ensures thrown == if e.WorkRejected? then old(thrown) + {e.error} else old(thrown)
      ensures reused == (old(reused) || (e.WorkRejected? && (!e.error.Thrown? || e.error in old(thrown))))
    {
      hide Next, S.Connect, Enabled, Runner.RethrownBy, Runner.Noted, Runner.Transactions.Valid;
      Account(a, e, rethrown);
      connections := S.Connect(connections, i, a, e, Next(a, e));
      reused := reused || (e.WorkRejected? && (!e.error.Thrown? || e.error in thrown));
      thrown := if e.WorkRejected? then thrown + {e.error} else thrown;
    }

    /** `run`, if it is admitted. */
    method Begin(writable: bool) returns (admitted: bool)
      requires Separate() && transactions.Valid()
      modifies this`runs, this`Repr, transactions
      ensures Separate() && transactions.Valid() && admitted == (old(transactions.pending) < transactions.maxPending)
      ensures View() == if admitted then S.Admit(old(View()), writable) else old(View())
      ensures fresh(Repr - old(Repr))
    {
      ghost var before := View();
      admitted := transactions.Admit();
      if admitted {
        var run := new Runner.Run(|runs|, writable);
        runs := runs + [run];
        Repr := Repr + {run};
        assert Attempts() == before.attempts + [Fresh(|before.attempts|, writable)];
      }
    }

    method BeginRead()
      requires Separate() && transactions.Valid()
      modifies this`runs, this`Repr, transactions
      ensures Separate() && transactions.Valid() && View() == S.Apply(old(View()), S.BeginRead)
      ensures fresh(Repr - old(Repr))
    {
      var admitted := Begin(false);
    }

    /** A call of `write` up to its first await. */
    method BeginWrite()
      requires Separate() && transactions.Valid()
      modifies this`runs, this`Repr, this`writes, transactions
      ensures Separate() && transactions.Valid() && View() == S.Apply(old(View()), S.BeginWrite)
      ensures fresh(Repr - old(Repr))
    {
      var next, none: seq<nat> := |runs|, [];
      var admitted := Begin(true);
      writes := writes + [if admitted then S.Write(none + [next], S.Attempting)
                          else S.Write(none, S.Done(Failed(Unavailable(next, Admission))))];
    }

    /** The catch clause of `write` once its attempt has answered. */
    method WriteCatch(w: nat)
      requires Separate() && transactions.Valid() && S.Allowed(View(), S.WriteCatch(w))
      modifies this`writes, transactions
      ensures Separate() && transactions.Valid() && View() == S.Apply(old(View()), S.WriteCatch(w))
    {
      var write := writes[w];
      var outcome := runs[S.Last(write.history)].caller.told.value;
      match outcome {
        case Succeeded => writes := writes[w := write.(phase := S.Done(Succeeded))];
        case Failed(error) =>
          var retry := transactions.Forget(error);
          var over := |write.history| - 1 >= S.LAST_RETRY || !retry;
          writes := writes[w := write.(phase := if over then S.Done(Failed(error)) else S.Delaying)];
      }
    }

    /** The delay is over. */
    method RetryDue(w: nat)
      requires Separate() && transactions.Valid() && S.Allowed(View(), S.RetryDue(w))
      modifies this`runs, this`Repr, this`writes, transactions
      ensures Separate() && transactions.Valid() && View() == S.Apply(old(View()), S.RetryDue(w))
      ensures fresh(Repr - old(Repr))
    {
      var next, history := |runs|, writes[w].history;
      var admitted := Begin(true);
      writes := writes[w := if admitted then S.Write(history + [next], S.Attempting)
                            else S.Write(history, S.Done(Failed(Unavailable(next, Admission))))];
    }

    /** Any step of the system, taken by the objects. */
    method Step(t: S.Step)
      requires Valid() && S.Allowed(View(), t)
      modifies Repr
      ensures Valid() && View() == S.Apply(old(View()), t)
      ensures fresh(Repr - old(Repr))
    {
      S.SystemStep(View(), t);
      assert Separate() && transactions.Valid() && this in Repr && transactions in Repr && (set run | run in runs) <= Repr;
      hide *;
      match t {
        case BeginRead => BeginRead();
        case BeginWrite => BeginWrite();
        case Local(i, e) => Local(i, e);
        case WriteCatch(w) => WriteCatch(w);
        case RetryDue(w) => RetryDue(w);
      }
      IsValid();
    }

    lemma IsValid()
      requires Separate() && transactions.Valid() && S.SystemInv(View())
      ensures Valid()
    {
    }

    /** What the runs of a write have submitted to the driver. */
    ghost function Commits(history: seq<nat>): nat
      reads this, runs
    {
      if history == [] then 0
      else Commits(history[..|history| - 1])
           + (if S.Last(history) < |runs| then runs[S.Last(history)].engine.commits else 0)
    }

    lemma CommitsOfView(history: seq<nat>)
      ensures Commits(history) == S.Commits(View(), history)
    {
      if history == [] {
      } else {
        CommitsOfView(history[..|history| - 1]);
      }
    }

    /** What the caller of a write has been told is the truth about the objects. */
    ghost predicate Truthful(w: nat)
      requires w < |writes|
      reads this, runs
    {
      var write := writes[w];
      && Commits(write.history) <= 1
      && (write.phase == S.Done(Succeeded) ==>
            && Commits(write.history) == 1 && write.history != [] && S.Last(write.history) < |runs|
            && runs[S.Last(write.history)].engine.acknowledged)
      && (S.FailedCleanly(write) ==> Commits(write.history) == 0)
    }

    lemma WritesAreTruthful()
      requires Valid()
      ensures forall w :: 0 <= w < |writes| ==> Truthful(w)
      ensures transactions.pending == S.Unsettled(Attempts()) <= transactions.maxPending
    {
      forall w | 0 <= w < |writes|
        ensures Truthful(w)
      {
        S.AtMostOne(View(), w);
        S.HistoryExists(View(), w);
        CommitsOfView(writes[w].history);
      }
    }
  }

  /** Whatever happens, in any order, the objects go through the states of the system, and at the end every caller has
      been told the truth: at most one commit a write, exactly one for a success, none for a clean failure. */
  method Serve(maxPending: nat, steps: seq<S.Step>) returns (db: Database)
    requires maxPending >= 1 && S.Possible(S.Initial(maxPending), steps)
    ensures db.Valid() && db.View() == S.After(S.Initial(maxPending), steps)
    ensures forall w :: 0 <= w < |db.writes| ==> db.Truthful(w)
    ensures db.transactions.pending == S.Unsettled(db.Attempts()) <= maxPending
  {
    hide S.Allowed, S.Apply, S.SystemInv;
    db := new Database(maxPending);
    assert steps[0..] == steps;
    for k := 0 to |steps|
      invariant fresh(db.Repr) && db.Valid()
      invariant S.Possible(db.View(), steps[k..]) && S.After(db.View(), steps[k..]) == S.After(S.Initial(maxPending), steps)
    {
      assert steps[k..][1..] == steps[k + 1..];
      db.Step(steps[k]);
    }
    S.BoundStays(S.Initial(maxPending), steps);
    db.WritesAreTruthful();
  }

  lemma WorkEndsOnce(a: Attempt, e: Event)
    requires Enabled(a, e)
    ensures e.WorkResolved? || e.WorkRejected? ==> a.caller.work.None?
  {
  }

  /** A local step, field by field. */
  lemma LocalParts(s: S.System, i: nat, e: Event, a: Attempt)
    requires S.Allowed(s, S.Local(i, e)) && a == s.attempts[i] && (a.caller.work.None? ==> s.pending > 0)
    ensures S.Apply(s, S.Local(i, e)) == S.System(
      s.attempts[i := Next(a, e)], s.writes, S.Connect(s.connections, i, a, e, Next(a, e)),
      s.pending - (if e.WorkResolved? || e.WorkRejected? then 1 else 0), s.maxPending,
      s.retryable + Runner.Noted(a, e, true), s.rolledBack + Runner.Noted(a, e, false),
      if e.WorkRejected? then s.thrown + {e.error} else s.thrown,
      s.reused || (e.WorkRejected? && (!e.error.Thrown? || e.error in s.thrown)))
  {
    WorkEndsOnce(a, e);
    hide Next, S.Connect, Rethrows, LockFailure, Enabled;
  }
}
