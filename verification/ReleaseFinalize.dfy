/** Finalization as it runs: every access to the disk or to the remote service may be the process's last. */
module ReleaseFinalize {
  import opened ReleaseJournal
  import opened Wrappers

  /** How a call ends: normally, with `Pending`, with any other exception, or not at all. */
  datatype Outcome = Done | Pending | Raised | Dead

  /** An answer of the remote service to a question that changes nothing. */
  datatype Reply = Yes | No | Failure | Crash

  /** The disk, the remote service and the lock; `trace` is everything that was ever done. */
  class World {
    ghost var trace: seq<Op>
    var s: State

    ghost predicate Valid()
      reads this
    {
      Runs(FRESH, trace) && s == After(FRESH, trace)
    }

    constructor ()
      ensures Valid() && s == FRESH
    {
      trace, s := [], FRESH;
    }

    /** One more operation happens. */
    method Do(op: Op)
      requires Valid() && Allowed(s, op)
      modifies this
      ensures Valid() && s == Apply(old(s), op) && trace == old(trace) + [op]
    {
      RunsOn(FRESH, trace, op);
      trace, s := trace + [op], Apply(s, op);
    }

    /** The process tries an operation: it may die before or after, with or without the machine. */
    method Try(op: Op) returns (alive: bool)
      requires Valid() && s.live.Some? && Allowed(s, op) && Inv(s) && !op.Die? && !op.PowerLoss? && !op.Lock?
      modifies this
      ensures Valid() && Inv(s)
      ensures alive ==> s == Apply(old(s), op)
      ensures !alive ==> s.live.None? && (s.sent == old(s).sent || s.sent == Apply(old(s), op).sent)
      ensures Continues(old(s), s)
    {
      StepInv(s, op);
      var before: bool := *;
      if !before {
        Do(op);
        alive := *;
        if alive {
          return;
        }
      }
      var powerLoss: bool := *;
      StepInv(s, if powerLoss then PowerLoss(0) else Die);
      if powerLoss {
        var k :| 0 <= k < |s.versions|;
        StepInv(s, PowerLoss(k));
        Do(PowerLoss(k));
      } else {
        Do(Die);
      }
      alive := false;
    }

    /** The process ends and the lock with it. */
    method End()
      requires Valid() && Inv(s) && s.live.Some?
      modifies this
      ensures Valid() && Inv(s) && s == old(s).(live := None)
    {
      StepInv(s, Die);
      Do(Die);
    }

    /** A question to the remote service. */
    method Ask() returns (reply: Reply)
      requires Valid() && Inv(s) && s.live.Some?
      modifies this
      ensures Valid() && Inv(s)
      ensures s == if reply.Crash? then old(s).(live := None) else old(s)
      ensures Continues(old(s), s)
    {
      var r: Reply := *;
      reply := r;
      if reply.Crash? {
        End();
      }
    }
  }

  /** Nothing that was sent is forgotten. */
  ghost predicate Continues(s: State, t: State) {
    s.sent <= t.sent
  }

  /** Only one step's record may differ. */
  ghost predicate Touches(v: Value, w: Value, step: StepName) {
    w.intent == v.intent && w.target == v.target && w.steps - {step} == v.steps - {step} && (step in v.steps ==> step in w.steps)
  }

  class Journal {
    const world: World
    var value: Value

    /** The process lives, and what it has in memory is what it last read or wrote. */
    ghost predicate Valid()
      reads this, world
    {
      world.Valid() && Inv(world.s) && world.s.live.Some? && world.s.live.value.value == Some(value)
    }

    constructor (world: World, value: Value)
      ensures this.world == world && this.value == value
    {
      this.world, this.value := world, value;
    }

    /** `atomic_json`: the new file takes the old one's place and the directory is synced. */
    method AtomicJson(w: Value) returns (alive: bool)
      requires Valid() && Extends(value, w)
      modifies this, world
      ensures world.Valid() && Inv(world.s) && world.s.sent == old(world.s.sent)
      ensures alive ==> Valid() && value == w && world.s.live.value.synced && world.s.versions == [Some(w)]
      ensures alive ==> world.s.live.value.claims == Claimed(old(value), w)
      ensures !alive ==> world.s.live.None?
    {
      value := w;
      alive := world.Try(Replace(w));
      if alive {
        alive := world.Try(SyncDirectory);
      }
    }

    method Bind(target: nat) returns (r: Outcome)
      requires Valid()
      modifies this, world
      ensures world.Valid() && Inv(world.s) && world.s.sent == old(world.s.sent)
      ensures r.Done? <==> world.s.live.Some? && (old(value.target).None? || old(value.target) == Some(target))
      ensures r.Done? ==> Valid() && value == old(value).(target := Some(target)) && world.s.live.value.synced
      ensures r.Raised? ==> Valid() && value == old(value)
      ensures r.Dead? <==> world.s.live.None?
      ensures !r.Pending?
    {
      if value.target.Some? && value.target.value != target {
        return Raised;
      }
      var alive := AtomicJson(value.(target := Some(target)));
      r := if alive then Done else Dead;
    }

    method Record(step: StepName, mark: Mark) returns (alive: bool)
      requires Valid()
      modifies this, world
      ensures world.Valid() && Inv(world.s) && world.s.sent == old(world.s.sent)
      ensures alive ==> Valid() && value == old(value).(steps := old(value.steps)[step := mark]) && world.s.live.value.synced
      ensures alive ==> world.s.versions == [Some(value)]
      ensures alive && mark.Attempted? && step !in old(value.steps) ==> step in world.s.live.value.claims
      ensures !alive ==> world.s.live.None?
    {
      alive := AtomicJson(value.(steps := value.steps[step := mark]));
    }

    /** Sends the mutation that has just been recorded as attempted; the reply may be an error or never come. */
    method Mutate(step: StepName) returns (r: Outcome)
      requires Valid() && value.target.Some? && world.s.live.value.synced && step in world.s.live.value.claims
      modifies world
      ensures world.Valid() && Inv(world.s) && Continues(old(world.s), world.s)
      ensures !r.Dead? ==> Valid()
      ensures !r.Dead? ==> world.s.sent == old(world.s.sent) + [Sending(step, world.s.live.value.intent, value.target.value)]
      ensures r.Dead? <==> world.s.live.None?
      ensures !r.Pending?
    {
      var alive := world.Try(Send(step));
      if !alive {
        return Dead;
      }
      var ok: bool := *;
      r := if ok then Done else Raised;
    }

    /** Records the attempt, sends, records the acknowledgement. */
    method AttemptOnce(step: StepName) returns (r: Outcome)
      requires Valid() && value.target.Some? && step !in value.steps
      modifies this, world
      ensures world.Valid() && Inv(world.s) && Continues(old(world.s), world.s)
      ensures r.Dead? <==> world.s.live.None?
      ensures !r.Dead? ==> Valid() && Touches(old(value), value, step) && step in value.steps
      ensures r.Done? ==> value.steps[step].Accepted? && world.s.versions == [Some(value)]
      ensures !r.Pending?
    {
      hide Inv, Runs, After, Apply, Allowed, Claimed, Extends;
      var alive := Record(step, Attempted);
      if !alive {
        return Dead;
      }
      r := Mutate(step);
      if r.Done? {
        alive := Record(step, Accepted);
        r := if alive then Done else Dead;
      }
    }

    /** A step is verified once its readback says so, and its mutation goes out only when there is no record of it. */
    method Once(step: StepName) returns (r: Outcome)
      requires Valid() && value.target.Some?
      modifies this, world
      ensures world.Valid() && Inv(world.s) && Continues(old(world.s), world.s)
      ensures r.Dead? <==> world.s.live.None?
      ensures !r.Dead? ==> Valid() && Touches(old(value), value, step)
      ensures r.Done? ==> world.s.versions == [Some(value)] && step in value.steps && value.steps[step].Verified?
      ensures step in old(value.steps) && !r.Dead? ==> world.s.sent == old(world.s.sent)
      ensures r.Pending? ==> step in value.steps
    {
      hide Inv, Runs, After, Apply, Allowed, Claimed, Extends;
      var reply := world.Ask();
      if reply.Crash? || reply.Failure? {
        return if reply.Crash? then Dead else Raised;
      }
      if reply.No? && step !in value.steps {
        r := AttemptOnce(step);
        if !r.Done? {
          return;
        }
        reply := world.Ask();
        if reply.Crash? || reply.Failure? {
          return if reply.Crash? then Dead else Raised;
        }
      }
      if reply.Yes? {
        var alive := Record(step, Verified);
        return if alive then Done else Dead;
      }
      r := Pending;
    }
  }

  /** Takes the free lock and reads or creates the journal; another intent is refused. */
  method Open(world: World, intent: nat) returns (r: Outcome, journal: Journal)
    requires world.Valid() && Inv(world.s) && world.s.live.None?
    modifies world
    ensures world.Valid() && Inv(world.s) && world.s.sent == old(world.s.sent) && fresh(journal) && journal.world == world
    ensures r.Done? ==> journal.Valid()
    ensures r.Done? ==> journal.value.intent == intent == world.s.live.value.intent
    ensures r.Done? ==> journal.value == if old(Visible(world.s)).Some? then old(Visible(world.s)).value else Initial(intent)
    ensures !r.Done? ==> world.s.live.None?
    ensures !r.Pending?
  {
    StepInv(world.s, Lock(intent));
    world.Do(Lock(intent));
    var previous := Visible(world.s);
    if previous.None? {
      journal := new Journal(world, Initial(intent));
      var alive := world.Try(Replace(Initial(intent)));
      if alive {
        alive := world.Try(SyncDirectory);
      }
      r := if alive then Done else Dead;
    } else {
      journal := new Journal(world, previous.value);
      if previous.value.intent != intent {
        world.End();
        return Raised, journal;
      }
      var alive := world.Try(Load);
      r := if alive then Done else Dead;
    }
  }

  /** What a finished run leaves on disk for good. */
  ghost predicate Shows(s: State, step: StepName, mark: Mark) {
    |s.versions| == 1 && s.versions[0].Some? && step in s.versions[0].value.steps && s.versions[0].value.steps[step] == mark
  }

  /** The Android flow between taking and leaving the lock. */
  method Distribute(journal: Journal, target: nat) returns (r: Outcome)
    requires journal.Valid()
    modifies journal, journal.world
    ensures journal.world.Valid() && Inv(journal.world.s) && Continues(old(journal.world.s), journal.world.s)
    ensures r.Dead? <==> journal.world.s.live.None?
    ensures r.Done? ==> Shows(journal.world.s, Distribution, Accepted) && Shows(journal.world.s, Verification, Verified)
    ensures Distribution in old(journal.value.steps) ==> journal.world.s.sent == old(journal.world.s.sent)
    ensures Distribution in old(journal.value.steps) && !old(journal.value.steps[Distribution]).Accepted? ==> !r.Done?
  {
    hide Inv, Runs, After, Apply, Allowed, Claimed, Extends;
    var alive := journal.Record(Verification, Checking);
    if !alive {
      return Dead;
    }
    var reply := journal.world.Ask();
    if !reply.Yes? {
      return if reply.Crash? then Dead else Raised;
    }
    r := journal.Bind(target);
    if !r.Done? {
      return;
    }
    if Distribution !in journal.value.steps {
      r := journal.AttemptOnce(Distribution);
      if !r.Done? {
        return;
      }
    } else if journal.value.steps[Distribution] != Accepted {
      return Raised;
    }
    reply := journal.world.Ask();
    if !reply.Yes? {
      return match reply case Crash => Dead case No => Pending case _ => Raised;
    }
    alive := journal.Record(Verification, Verified);
    r := if alive then Done else Dead;
  }

  /** One `android` invocation.  A mutation whose outcome is unknown is never repeated: with a record of it that is
      not an acknowledgement, the run fails and sends nothing. */
  method Android(world: World, intent: nat, target: nat) returns (r: Outcome)
    requires world.Valid() && Inv(world.s)
    modifies world
    ensures world.Valid() && Inv(world.s) && Continues(old(world.s), world.s)
    ensures old(world.s.live).Some? ==> r.Raised? && world.s == old(world.s)
    ensures old(world.s.live).None? ==> world.s.live.None?
    ensures r.Done? ==> Shows(world.s, Distribution, Accepted) && Shows(world.s, Verification, Verified)
    ensures var v := old(Visible(world.s));
      v.Some? && (v.value.intent != intent || (Distribution in v.value.steps && !v.value.steps[Distribution].Accepted?)) ==>
        !r.Done? && world.s.sent == old(world.s.sent)
  {
    if world.s.live.Some? {
      return Raised;
    }
    var entered, journal := Open(world, intent);
    if !entered.Done? {
      return entered;
    }
    r := Distribute(journal, target);
    if !r.Dead? {
      world.End();
    }
  }

  // ---- TestFlight ----

  /** A monotonic clock in milliseconds; sleeping takes at least as long as asked for. */
  class Clock {
    var now: int

    method Sleep(duration: nat)
      modifies this
      ensures now >= old(now) + duration
    {
      var later: int :| later >= 0;
      now := now + duration + later;
    }

    method Read() returns (t: int)
      modifies this
      ensures t == now >= old(now)
    {
      var later: int :| later >= 0;
      now := now + later;
      t := now;
    }
  }

  lemma Untouched(v: Value, w: Value, step: StepName, other: StepName)
    requires Touches(v, w, step) && other != step && other in v.steps
    ensures other in w.steps && w.steps[other] == v.steps[other]
  {
    assert other in v.steps - {step} && (v.steps - {step})[other] == v.steps[other];
  }

  /** One `ios_verify`. */
  method IosVerify(journal: Journal, target: nat) returns (r: Outcome)
    requires journal.Valid()
    modifies journal, journal.world
    ensures journal.world.Valid() && Inv(journal.world.s) && Continues(old(journal.world.s), journal.world.s)
    ensures r.Dead? <==> journal.world.s.live.None?
    ensures !r.Dead? ==> journal.Valid()
    ensures r.Done? ==> Shows(journal.world.s, KoreanNotes, Verified) && Shows(journal.world.s, InternalGroup, Verified)
    ensures r.Done? ==> Shows(journal.world.s, Verification, Verified)
  {
    hide Inv, Runs, After, Apply, Allowed, Claimed, Extends;
    var reply := journal.world.Ask();
    if !reply.Yes? {
      return match reply case Crash => Dead case No => Pending case _ => Raised;
    }
    r := journal.Bind(target);
    if !r.Done? {
      return;
    }
    reply := journal.world.Ask();
    if !reply.Yes? {
      return if reply.Crash? then Dead else Raised;
    }
    r := journal.Once(KoreanNotes);
    if !r.Done? {
      return;
    }
    ghost var noted := journal.value;
    r := journal.Once(InternalGroup);
    if !r.Done? {
      return;
    }
    Untouched(noted, journal.value, InternalGroup, KoreanNotes);
    reply := journal.world.Ask();
    if !reply.Yes? {
      return match reply case Crash => Dead case No => Pending case _ => Raised;
    }
    var alive := journal.Record(Verification, Verified);
    r := if alive then Done else Dead;
  }

  /** The retry loop: only `Pending` is retried, until the deadline has passed. */
  method Retry(journal: Journal, target: nat, clock: Clock, waitSeconds: nat) returns (r: Outcome)
    requires journal.Valid()
    modifies journal, journal.world, clock
    ensures journal.world.Valid() && Inv(journal.world.s) && Continues(old(journal.world.s), journal.world.s)
    ensures r.Dead? <==> journal.world.s.live.None?
    ensures r.Done? ==> Shows(journal.world.s, KoreanNotes, Verified) && Shows(journal.world.s, InternalGroup, Verified)
    ensures r.Done? ==> Shows(journal.world.s, Verification, Verified)
    ensures r.Pending? ==> clock.now >= old(clock.now) + 1000 * waitSeconds
  {
    var deadline := clock.Read();
    deadline := deadline + 1000 * waitSeconds;
    while true
      invariant journal.Valid() && Continues(old(journal.world.s), journal.world.s)
      invariant deadline >= old(clock.now) + 1000 * waitSeconds
      decreases deadline - clock.now
    {
      r := IosVerify(journal, target);
      if !r.Pending? {
        return;
      }
      var now := clock.Read();
      var remaining := deadline - now;
      if remaining <= 0 {
        return;
      }
      clock.Sleep(if remaining < 15000 then remaining else 15000);
    }
  }

  method Ios(world: World, intent: nat, target: nat, clock: Clock, waitSeconds: nat) returns (r: Outcome)
    requires world.Valid() && Inv(world.s)
    modifies world, clock
    ensures world.Valid() && Inv(world.s) && Continues(old(world.s), world.s)
    ensures old(world.s.live).Some? || waitSeconds > 600 ==> r.Raised? && world.s == old(world.s)
    ensures old(world.s.live).None? ==> world.s.live.None?
    ensures r.Done? ==> Shows(world.s, KoreanNotes, Verified) && Shows(world.s, InternalGroup, Verified)
    ensures r.Done? ==> Shows(world.s, Verification, Verified)
  {
    if waitSeconds > 600 || world.s.live.Some? {
      return Raised;
    }
    var entered, journal := Open(world, intent);
    if !entered.Done? {
      return entered;
    }
    var alive := journal.Record(Verification, Checking);
    if !alive {
      return Dead;
    }
    var reply := world.Ask();
    if !reply.Yes? {
      if !reply.Crash? {
        world.End();
      }
      return if reply.Crash? then Dead else Raised;
    }
    r := Retry(journal, target, clock, waitSeconds);
    if !r.Dead? {
      world.End();
    }
  }

  datatype Invocation = OfAndroid(intent: nat, target: nat) | OfIos(intent: nat, target: nat, waitSeconds: nat)

  /** Any invocations, one after another, each cut off anywhere, with power losses while nothing runs: every mutation
      goes out at most once, and all of them for the same intent and the same target. */
  method InvokeAll(world: World, clock: Clock, invocations: seq<Invocation>)
    requires world.Valid() && world.s == FRESH
    modifies world, clock
    ensures world.Valid()
    ensures forall i, j :: 0 <= i < j < |world.s.sent| ==>
      && world.s.sent[i].step != world.s.sent[j].step
      && world.s.sent[i].intent == world.s.sent[j].intent && world.s.sent[i].target == world.s.sent[j].target
  {
    for k := 0 to |invocations|
      invariant world.Valid() && Inv(world.s) && world.s.live.None?
    {
      var powerLoss: bool := *;
      if powerLoss {
        var survivor: nat :| survivor < |world.s.versions|;
        StepInv(world.s, PowerLoss(survivor));
        world.Do(PowerLoss(survivor));
      }
      var r: Outcome;
      match invocations[k] {
        case OfAndroid(intent, target) => r := Android(world, intent, target);
        case OfIos(intent, target, waitSeconds) => r := Ios(world, intent, target, clock, waitSeconds);
      }
    }
    forall i, j | 0 <= i < j < |world.s.sent|
      ensures world.s.sent[i].step != world.s.sent[j].step
      ensures world.s.sent[i].intent == world.s.sent[j].intent && world.s.sent[i].target == world.s.sent[j].target
    {
      SentAtMostOnce(world.trace, i, j);
    }
  }
}
