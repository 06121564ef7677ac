/** The spooler itself: counters and closure variables updated between awaits, each segment one step. */
module MediaSpooler {
  import opened MediaSpool
  import opened MediaSpoolLedger
  import opened Wrappers

  /** The module's own counters, shared by every spooler of the process. */
  class Process {
    var reserved: nat
    var active: nat

    constructor ()
      ensures reserved == 0 && active == 0
    {
      reserved, active := 0, 0;
    }
  }

  datatype Answer = Refusal(code: Code) | Admitted(reception: Reception)

  class Spooler {
    const process: Process
    const capacity: nat
    const concurrency: nat
    var reserved: nat
    var active: nat

    function View(): Spool
      reads this
    {
      Spool(capacity, concurrency, reserved, active)
    }

    /** A host configuration outside the bounds is refused by the caller's `bounded`. */
    constructor (process: Process, capacity: nat, concurrency: nat)
      requires Within(capacity, CAPACITY) && Within(concurrency, CONCURRENCY)
      ensures View() == Spool(capacity, concurrency, 0, 0) && this.process == process
    {
      this.process, this.capacity, this.concurrency := process, capacity, concurrency;
      reserved, active := 0, 0;
    }

    /** Checks and reserves in one synchronous segment, before the first await. */
    method Receive(index: nat, maximum: nat, expected: Option<nat>, aborted: bool) returns (answer: Answer)
      modifies this`reserved, this`active, process
      ensures var refused := old(Refused(maximum, expected, aborted, View(), process.reserved, process.active));
        if refused.Some? then
          && answer == Refusal(refused.value) && View() == old(View())
          && process.reserved == old(process.reserved) && process.active == old(process.active)
        else
          && answer.Admitted? && fresh(answer.reception) && answer.reception.spooler == this
          && answer.reception.View() == Started(index, maximum, expected)
          && reserved == old(reserved) + Reservation(Started(index, maximum, expected)) && active == old(active) + 1
          && process.reserved == old(process.reserved) + Reservation(Started(index, maximum, expected))
          && process.active == old(process.active) + 1
    {
      if !Within(maximum, FILE_LIMIT) || (expected.Some? && !Within(expected.value, maximum)) {
        return Refusal(InvalidInput);
      }
      var reservation := if expected.Some? then expected.value else maximum;
      if aborted {
        return Refusal(AbortedUpload);
      }
      if active >= concurrency || process.active >= CONCURRENCY {
        return Refusal(ConcurrencyExceeded);
      }
      if reservation > capacity - reserved || reservation > CAPACITY - process.reserved {
        return Refusal(CapacityExceeded);
      }
      active, process.active := active + 1, process.active + 1;
      reserved, process.reserved := reserved + reservation, process.reserved + reservation;
      var reception := new Reception(this, index, maximum, expected);
      answer := Admitted(reception);
    }
  }

  /** One call of `receive` and the `dispose` it hands out. */
  class Reception {
    const spooler: Spooler
    const index: nat
    const maximum: nat
    const expected: Option<nat>
    var phase: Phase
    var failure: Option<Code>
    var bytes: nat
    var disk: Disk
    var attempts: seq<Attempt>
    var cleanup: Option<nat>
    var released: bool

    function View(): Upload
      reads this
    {
      Upload(index, maximum, expected, phase, failure, bytes, disk, Disposal(attempts, cleanup, released))
    }

    /** What the ledger invariant says of the counters: they still hold this upload's share. */
    ghost predicate Covered()
      reads this, spooler, spooler.process
    {
      && (!released ==> Reservation(View()) <= spooler.reserved && Reservation(View()) <= spooler.process.reserved)
      && (Active(View()) ==> 1 <= spooler.active && 1 <= spooler.process.active)
    }

    constructor (spooler: Spooler, index: nat, maximum: nat, expected: Option<nat>)
      ensures View() == Started(index, maximum, expected) && this.spooler == spooler
    {
      this.spooler, this.index, this.maximum, this.expected := spooler, index, maximum, expected;
      phase, failure, bytes, disk := MakingDirectory, None, 0, Disk(false, false, 0);
      attempts, cleanup, released := [], None, false;
    }

    /** `dispose`: every caller gets the attempt under way, or starts one. */
    method Dispose()
      modifies this`attempts, this`cleanup
      ensures View() == old(View()).(disposal := Begin(old(View().disposal)))
    {
      if cleanup.None? {
        attempts, cleanup := attempts + [Closing], Some(|attempts|);
      }
    }

    /** The catch block up to its await. */
    method Throw(code: Code)
      modifies this`phase, this`attempts, this`cleanup
      ensures View() == Fail(old(View()), code)
    {
      phase := Cleaning(code);
      Dispose();
    }

    method DirectoryMade(ok: bool)
      requires phase.MakingDirectory?
      modifies this
      ensures View() == Next(old(View()), Event.DirectoryMade(ok))
    {
      if !ok {
        Throw(IoFailed);
        return;
      }
      disk := disk.(directory := true);
      phase := SettingMode;
    }

    method ModeSet(ok: bool)
      requires phase.SettingMode?
      modifies this
      ensures View() == Next(old(View()), Event.ModeSet(ok))
    {
      if !ok {
        Throw(IoFailed);
      } else if failure.Some? {
        Throw(failure.value);
      } else {
        phase := OpeningFile;
      }
    }

    method Opened(ok: bool)
      requires phase.OpeningFile?
      modifies this
      ensures View() == Next(old(View()), Event.Opened(ok))
    {
      if !ok {
        Throw(IoFailed);
        return;
      }
      disk := disk.(file := true);
      if failure.Some? {
        Throw(failure.value);
      } else {
        phase := Piping(None);
      }
    }

    /** The transform: a chunk that would overflow is refused whole. */
    method Chunk(n: nat)
      requires phase == Piping(None)
      modifies this`phase, this`bytes
      ensures View() == Next(old(View()), Event.Chunk(n))
    {
      if n > maximum - bytes {
        phase := Piping(Some(TooLarge));
      } else if expected.Some? && n > expected.value - bytes {
        phase := Piping(Some(LengthMismatch));
      } else {
        bytes := bytes + n;
      }
    }

    method Written(n: nat)
      requires disk.file && disk.scratch + n <= bytes
      modifies this`disk
      ensures View() == Next(old(View()), Event.Written(n))
    {
      disk := disk.(scratch := disk.scratch + n);
    }

    /** The pipeline has settled; a complete upload is handed to the caller and is no longer active. */
    method PipeEnded(ok: bool)
      requires Enabled(View(), Event.PipeEnded(ok)) && Covered()
      modifies this, spooler`active, spooler.process`active
      ensures View() == Next(old(View()), Event.PipeEnded(ok))
      ensures spooler.active == old(spooler.active) - Stopped(old(View()), View())
      ensures spooler.process.active == old(spooler.process.active) - Stopped(old(View()), View())
    {
      if !ok {
        Throw(if phase.rejected.Some? then phase.rejected.value else IoFailed);
      } else if failure.Some? {
        Throw(failure.value);
      } else if bytes == 0 {
        Throw(EmptyUpload);
      } else if expected.Some? && bytes != expected.value {
        Throw(LengthMismatch);
      } else {
        phase := Held;
        spooler.active := spooler.active - 1;
        spooler.process.active := spooler.process.active - 1;
      }
    }

    /** A timer, the caller's signal or an input error: the first one is the one reported. */
    method Stop(code: Code)
      requires Active(View())
      modifies this`failure
      ensures View() == Next(old(View()), Event.Stop(code))
    {
      if failure.None? {
        failure := Some(code);
      }
    }

    method Closed(k: nat, ok: bool)
      requires Enabled(View(), Event.Closed(k, ok))
      modifies this`disk, this`attempts
      ensures View() == Next(old(View()), Event.Closed(k, ok))
    {
      if ok {
        disk := disk.(file := false);
        attempts := attempts[k := Removing];
      } else {
        attempts := attempts[k := Failed];
      }
    }

    /** The directory is gone or is not; only then, and only once, is the reservation given back. */
    method Removed(k: nat, ok: bool, left: nat)
      requires Enabled(View(), Event.Removed(k, ok, left)) && Covered()
      modifies this`disk, this`attempts, this`released, spooler`reserved, spooler.process`reserved
      ensures View() == Next(old(View()), Event.Removed(k, ok, left))
      ensures spooler.reserved == old(spooler.reserved) - Returned(old(View()), View())
      ensures spooler.process.reserved == old(spooler.process.reserved) - Returned(old(View()), View())
    {
      if !ok {
        disk := disk.(scratch := left);
        attempts := attempts[k := Failed];
        return;
      }
      disk := Disk(false, disk.file, 0);
      if !released {
        released := true;
        spooler.reserved := spooler.reserved - Reservation(View());
        spooler.process.reserved := spooler.process.reserved - Reservation(View());
      }
      attempts := attempts[k := Succeeded];
    }

    /** A failed attempt forgets itself unless another has taken its place. */
    method Caught(k: nat)
      requires Enabled(View(), Event.Caught(k))
      modifies this`cleanup
      ensures View() == Next(old(View()), Event.Caught(k))
    {
      if cleanup == Some(k) {
        cleanup := None;
      }
    }

    /** The rest of the catch block and the finally block, once the first cleanup has settled. */
    method Settled()
      requires Enabled(View(), Event.Settled) && Covered()
      modifies this`phase, this`cleanup, spooler`active, spooler.process`active
      ensures View() == Next(old(View()), Event.Settled)
      ensures spooler.active == old(spooler.active) - 1 && spooler.process.active == old(spooler.process.active) - 1
    {
      if attempts[0].Failed? {
        Caught(0);
        phase := Gone(CleanupFailed);
      } else {
        phase := Gone(if failure.Some? then failure.value else phase.thrown);
      }
      spooler.active := spooler.active - 1;
      spooler.process.active := spooler.process.active - 1;
    }

    /** The segment that an event triggers, with what it gives back to the counters. */
    method Handle(e: Event)
      requires Enabled(View(), e) && Covered()
      modifies this, spooler`reserved, spooler`active, spooler.process
      ensures View() == Next(old(View()), e)
      ensures spooler.reserved == old(spooler.reserved) - Returned(old(View()), View())
      ensures spooler.active == old(spooler.active) - Stopped(old(View()), View())
      ensures spooler.process.reserved == old(spooler.process.reserved) - Returned(old(View()), View())
      ensures spooler.process.active == old(spooler.process.active) - Stopped(old(View()), View())
    {
      Gives(View(), e);
      hide Next, Returned, Stopped;
      match e {
        case DirectoryMade(ok) => DirectoryMade(ok);
        case ModeSet(ok) => ModeSet(ok);
        case Opened(ok) => Opened(ok);
        case Chunk(n) => Chunk(n);
        case Written(n) => Written(n);
        case PipeEnded(ok) => PipeEnded(ok);
        case Stop(code) => Stop(code);
        case Dispose => Dispose();
        case Closed(k, ok) => Closed(k, ok);
        case Removed(k, ok, left) => Removed(k, ok, left);
        case Caught(k) => Caught(k);
        case Settled => Settled();
      }
    }
  }

  /** Only a removal gives back a reservation, and only the end of `receive` makes an upload inactive. */
  lemma Gives(u: Upload, e: Event)
    requires Enabled(u, e)
    ensures !e.Removed? ==> Returned(u, Next(u, e)) == 0
    ensures !e.PipeEnded? && !e.Settled? ==> Stopped(u, Next(u, e)) == 0
    ensures e.Settled? ==> Stopped(u, Next(u, e)) == 1
  {
  }

  /** The objects of one process: its spoolers and all calls of `receive` so far. */
  class Host {
    const process: Process
    var spoolers: seq<Spooler>
    var receptions: seq<Reception>
    ghost var Repr: set<object>

    ghost function Spools(): seq<Spool>
      reads `spoolers, spoolers
    {
      var all := spoolers;
      seq(|all|, k requires 0 <= k < |all| reads all => all[k].View())
    }

    ghost function Uploads(): seq<Upload>
      reads `receptions, receptions
    {
      var all := receptions;
      seq(|all|, i requires 0 <= i < |all| reads all => all[i].View())
    }

    ghost function View(): System
      reads this, process, spoolers, receptions
    {
      System(Spools(), Uploads(), process.reserved, process.active)
    }

    /** The objects are distinct, and each reception belongs to the spooler that its number says. */
    ghost predicate Linked()
      reads this, spoolers, receptions
    {
      && this in Repr && process in Repr
      && (forall k :: 0 <= k < |spoolers| ==> spoolers[k] in Repr) && (forall i :: 0 <= i < |receptions| ==> receptions[i] in Repr)
      && (forall j, k :: 0 <= j < k < |spoolers| ==> spoolers[j] != spoolers[k])
      && (forall i, j :: 0 <= i < j < |receptions| ==> receptions[i] != receptions[j])
      && (forall k :: 0 <= k < |spoolers| ==> spoolers[k].process == process)
      && (forall i :: 0 <= i < |receptions| ==>
            receptions[i].index < |spoolers| && receptions[i].spooler == spoolers[receptions[i].index])
    }

    ghost predicate Valid()
      reads this, process, spoolers, receptions
    {
      Linked() && Inv(View())
    }

    constructor ()
      ensures Valid() && View() == EMPTY && fresh(Repr)
    {
      process := new Process();
      spoolers, receptions := [], [];
      Repr := {this, process};
    }

    method Construct(capacity: nat, concurrency: nat)
      requires Linked() && Within(capacity, CAPACITY) && Within(concurrency, CONCURRENCY)
      modifies this`spoolers, this`Repr
      ensures Linked() && View() == Apply(old(View()), Step.Construct(capacity, concurrency))
      ensures fresh(Repr - old(Repr))
    {
      ghost var before := View();
      var spooler := new Spooler(process, capacity, concurrency);
      spoolers := spoolers + [spooler];
      Repr := Repr + {spooler};
      assert Spools() == before.spools + [Spool(capacity, concurrency, 0, 0)];
    }

    method Receive(k: nat, maximum: nat, expected: Option<nat>, aborted: bool)
      requires Linked() && k < |spoolers|
      modifies this`receptions, this`Repr, process, spoolers
      ensures Linked() && View() == Apply(old(View()), Step.Receive(k, maximum, expected, aborted))
      ensures fresh(Repr - old(Repr))
    {
      hide Refused;
      ghost var before := View();
      var answer := spoolers[k].Receive(k, maximum, expected, aborted);
      match answer {
        case Refusal(_) => assert Spools() == before.spools && Uploads() == before.uploads;
        case Admitted(reception) =>
          receptions := receptions + [reception];
          Repr := Repr + {reception};
          assert Uploads() == before.uploads + [Started(k, maximum, expected)];
          assert Spools() == before.spools[k := spoolers[k].View()];
      }
    }

    /** An event of one reception.  That the counters still hold its share is what the ledger says. */
    method Advance(i: nat, e: Event)
      requires Valid() && Allowed(View(), Step.Advance(i, e))
      modifies process, spoolers, receptions
      ensures Linked() && View() == Apply(old(View()), Step.Advance(i, e))
    {
      hide Inv, Enabled, Next, Returned, Stopped, Reservation, Active;
      ghost var before := View();
      var reception := receptions[i];
      StillCovered(before, i);
      reception.Handle(e);
      assert Uploads() == before.uploads[i := Next(before.uploads[i], e)];
      assert Spools() == before.spools[reception.index := spoolers[reception.index].View()];
    }

    method Take(t: Step)
      requires Valid() && Allowed(View(), t)
      modifies Repr
      ensures Valid() && View() == Apply(old(View()), t)
      ensures fresh(Repr - old(Repr))
    {
      SystemStep(View(), t);
      assert Linked();
      assert t.Construct? ==> Within(t.capacity, CAPACITY) && Within(t.concurrency, CONCURRENCY);
      assert t.Receive? ==> t.spool < |spoolers|;
      assert (set spooler | spooler in spoolers) <= Repr && (set reception | reception in receptions) <= Repr;
      hide *;
      match t {
        case Construct(capacity, concurrency) => Construct(capacity, concurrency);
        case Receive(k, maximum, expected, aborted) => Receive(k, maximum, expected, aborted);
        case Advance(i, e) => Advance(i, e);
      }
      IsValid();
    }

    lemma IsValid()
      requires Linked() && Inv(View())
      ensures Valid()
    {
    }
  }

  /** The counters of a spooler and of the process cover the bytes on scratch and are within their ceilings. */
  ghost predicate Covers(host: Host, k: nat)
    requires k < |host.spoolers|
    reads host, host.process, host.spoolers, host.receptions
  {
    && Sum(host.Uploads(), Scratch(Some(k))) <= host.spoolers[k].reserved <= host.spoolers[k].capacity
    && host.spoolers[k].reserved == Sum(host.Uploads(), Outstanding(Some(k)))
    && host.spoolers[k].active <= host.spoolers[k].concurrency
    && Sum(host.Uploads(), Scratch(None)) <= host.process.reserved <= CAPACITY
    && host.process.reserved == Total(host.Spools(), true) && host.process.active == Total(host.Spools(), false) <= CONCURRENCY
  }

  /** Whatever happens, in any order, the objects go through the states of the ledger, and the counters that they hold
      at the end cover the bytes on scratch and are within their ceilings. */
  method Serve(steps: seq<Step>) returns (host: Host)
    requires Runs(EMPTY, steps)
    ensures host.Valid() && host.View() == Final(EMPTY, steps)
    ensures forall k :: 0 <= k < |host.spoolers| ==> Covers(host, k)
  {
    hide Inv, Apply, Allowed;
    host := new Host();
    assert steps[0..] == steps;
    for n := 0 to |steps|
      invariant fresh(host.Repr) && host.Valid()
      invariant Runs(host.View(), steps[n..]) && Final(host.View(), steps[n..]) == Final(EMPTY, steps)
    {
      assert steps[n..][1..] == steps[n + 1..];
      host.Take(steps[n]);
    }
    forall k | 0 <= k < |host.spoolers|
      ensures Covers(host, k)
    {
      ScratchIsCovered(steps, k);
      SpoolsKeep(host.View(), k);
    }
  }

  lemma SpoolsKeep(s: System, k: nat)
    requires Inv(s) && k < |s.spools|
    ensures s.spools[k].active <= s.spools[k].concurrency && s.globalActive == Total(s.spools, false) <= CONCURRENCY
  {
    assert SpoolInv(s, k);
  }
}
