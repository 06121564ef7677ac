/** The two-level capacity ledger over any number of spoolers and uploads. */
module MediaSpoolLedger {
  import opened MediaSpool
  import opened Wrappers

  datatype Spool = Spool(capacity: nat, concurrency: nat, reserved: nat, active: nat)

  datatype System = System(spools: seq<Spool>, uploads: seq<Upload>, globalReserved: nat, globalActive: nat)

  datatype Step =
    | Construct(capacity: nat, concurrency: nat)
    | Receive(spool: nat, maximum: nat, expected: Option<nat>, aborted: bool)
    | Advance(upload: nat, event: Event)

  const EMPTY: System := System([], [], 0, 0)

  predicate Within(value: nat, maximum: nat) {
    1 <= value <= maximum
  }

  /** `None` is admission; checks in the source's order. */
  function Refused(maximum: nat, expected: Option<nat>, aborted: bool, spool: Spool, globalReserved: nat, globalActive: nat): Option<Code> {
    if !Within(maximum, FILE_LIMIT) || (expected.Some? && !Within(expected.value, maximum)) then Some(InvalidInput)
    else
      var reservation := if expected.Some? then expected.value else maximum;
      if aborted then Some(AbortedUpload)
      else if spool.active >= spool.concurrency || globalActive >= CONCURRENCY then Some(ConcurrencyExceeded)
      else if reservation > spool.capacity - spool.reserved || reservation > CAPACITY - globalReserved then Some(CapacityExceeded)
      else None
  }

  predicate Allowed(s: System, step: Step) {
    match step
    case Construct(capacity, concurrency) => Within(capacity, CAPACITY) && Within(concurrency, CONCURRENCY)
    case Receive(spool, _, _, _) => spool < |s.spools|
    case Advance(i, e) => i < |s.uploads| && s.uploads[i].spool < |s.spools| && Enabled(s.uploads[i], e)
  }

  /** What a step of an upload gives back to its spooler and to the process. */
  function Returned(u: Upload, v: Upload): nat {
    if !u.disposal.released && v.disposal.released then Reservation(u) else 0
  }

  function Stopped(u: Upload, v: Upload): nat {
    if Active(u) && !Active(v) then 1 else 0
  }

  function Minus(a: nat, b: nat): nat {
    if a >= b then a - b else 0
  }

  function Apply(s: System, step: Step): System
    requires Allowed(s, step)
  {
    match step
    case Construct(capacity, concurrency) => s.(spools := s.spools + [Spool(capacity, concurrency, 0, 0)])
    case Receive(k, maximum, expected, aborted) =>
      if Refused(maximum, expected, aborted, s.spools[k], s.globalReserved, s.globalActive).Some? then s
      else
        var u := Started(k, maximum, expected);
        var p := s.spools[k];
        System(s.spools[k := p.(reserved := p.reserved + Reservation(u), active := p.active + 1)], s.uploads + [u],
               s.globalReserved + Reservation(u), s.globalActive + 1)
    case Advance(i, e) =>
      var u, v := s.uploads[i], Next(s.uploads[i], e);
      var p, k := s.spools[u.spool], u.spool;
      System(s.spools[k := p.(reserved := Minus(p.reserved, Returned(u, v)), active := Minus(p.active, Stopped(u, v)))],
             s.uploads[i := v], Minus(s.globalReserved, Returned(u, v)), Minus(s.globalActive, Stopped(u, v)))
  }

  // ---- Sums ----

  /** What is counted, over one spooler or over all. */
  datatype Measure = Outstanding(of: Option<nat>) | Running(of: Option<nat>) | Scratch(of: Option<nat>)

  function Weigh(u: Upload, m: Measure): nat {
    if m.of.Some? && m.of.value != u.spool then 0
    else match m
      case Outstanding(_) => if u.disposal.released then 0 else Reservation(u)
      case Running(_) => if Active(u) then 1 else 0
      case Scratch(_) => u.disk.scratch
  }

  function Sum(us: seq<Upload>, m: Measure): nat {
    if us == [] then 0 else Weigh(us[0], m) + Sum(us[1..], m)
  }

  lemma {:induction false} SumOfUpdate(us: seq<Upload>, i: nat, v: Upload, m: Measure)
    requires i < |us|
    ensures Sum(us[i := v], m) == Sum(us, m) - Weigh(us[i], m) + Weigh(v, m)
    ensures Sum(us, m) >= Weigh(us[i], m)
  {
    if i == 0 {
      assert us[i := v][1..] == us[1..];
    } else {
      SumOfUpdate(us[1..], i - 1, v, m);
      assert us[i := v][1..] == us[1..][i - 1 := v];
    }
  }

  lemma {:induction false} SumOfAppend(us: seq<Upload>, v: Upload, m: Measure)
    ensures Sum(us + [v], m) == Sum(us, m) + Weigh(v, m)
  {
    if us == [] {
      assert [v][1..] == [];
    } else {
      SumOfAppend(us[1..], v, m);
      assert (us + [v])[1..] == us[1..] + [v];
    }
  }

  lemma {:induction false} SumNever(us: seq<Upload>, m: Measure, k: nat)
    requires m.of == Some(k) && forall u :: u in us ==> u.spool != k
    ensures Sum(us, m) == 0
  {
    if us == [] {
    } else {
      SumNever(us[1..], m, k);
    }
  }

  function Total(spools: seq<Spool>, reserved: bool): nat {
    if spools == [] then 0 else (if reserved then spools[0].reserved else spools[0].active) + Total(spools[1..], reserved)
  }

  lemma {:induction false} TotalOfUpdate(spools: seq<Spool>, k: nat, p: Spool, reserved: bool)
    requires k < |spools|
    ensures Total(spools[k := p], reserved) == Total(spools, reserved)
      - (if reserved then spools[k].reserved else spools[k].active) + (if reserved then p.reserved else p.active)
  {
    if k == 0 {
      assert spools[k := p][1..] == spools[1..];
    } else {
      TotalOfUpdate(spools[1..], k - 1, p, reserved);
      assert spools[k := p][1..] == spools[1..][k - 1 := p];
    }
  }

  lemma {:induction false} TotalOfAppend(spools: seq<Spool>, p: Spool, reserved: bool)
    ensures Total(spools + [p], reserved) == Total(spools, reserved) + (if reserved then p.reserved else p.active)
  {
    if spools == [] {
      assert [p][1..] == [];
    } else {
      TotalOfAppend(spools[1..], p, reserved);
      assert (spools + [p])[1..] == spools[1..] + [p];
    }
  }

  // ---- The invariant ----

  ghost predicate SpoolInv(s: System, k: nat)
    requires k < |s.spools|
  {
    var p := s.spools[k];
    && p.reserved == Sum(s.uploads, Outstanding(Some(k))) && p.reserved <= p.capacity <= CAPACITY
    && p.active == Sum(s.uploads, Running(Some(k))) && p.active <= p.concurrency <= CONCURRENCY
  }

  ghost predicate UploadsInv(s: System) {
    forall i :: 0 <= i < |s.uploads| ==> UploadInv(s.uploads[i]) && s.uploads[i].spool < |s.spools|
  }

  ghost predicate GlobalInv(s: System) {
    && s.globalReserved == Sum(s.uploads, Outstanding(None)) == Total(s.spools, true) <= CAPACITY
    && s.globalActive == Sum(s.uploads, Running(None)) == Total(s.spools, false) <= CONCURRENCY
  }

  ghost predicate Inv(s: System) {
    UploadsInv(s) && GlobalInv(s) && forall k :: 0 <= k < |s.spools| ==> SpoolInv(s, k)
  }

  lemma ConstructStep(s: System, step: Step)
    requires Inv(s) && Allowed(s, step) && step.Construct?
    ensures Inv(Apply(s, step))
  {
    hide UploadInv;
    var t, n := Apply(s, step), |s.spools|;
    SumNever(s.uploads, Outstanding(Some(n)), n);
    SumNever(s.uploads, Running(Some(n)), n);
    TotalOfAppend(s.spools, t.spools[n], true);
    TotalOfAppend(s.spools, t.spools[n], false);
    forall k | 0 <= k < |t.spools|
      ensures SpoolInv(t, k)
    {
      assert k < n ==> SpoolInv(s, k);
    }
  }

  lemma ReceiveStep(s: System, step: Step)
    requires Inv(s) && Allowed(s, step) && step.Receive?
    ensures Inv(Apply(s, step))
  {
    hide UploadInv;
    var t, k := Apply(s, step), step.spool;
    if t != s {
      var u := Started(k, step.maximum, step.expected);
      StartedInv(k, step.maximum, step.expected);
      TotalOfUpdate(s.spools, k, t.spools[k], true);
      TotalOfUpdate(s.spools, k, t.spools[k], false);
      SumOfAppend(s.uploads, u, Outstanding(None));
      SumOfAppend(s.uploads, u, Running(None));
      assert SpoolInv(s, k);
      forall j | 0 <= j < |t.spools|
        ensures SpoolInv(t, j)
      {
        assert SpoolInv(s, j);
        SumOfAppend(s.uploads, u, Outstanding(Some(j)));
        SumOfAppend(s.uploads, u, Running(Some(j)));
      }
    }
  }

  /** What the spooler `k` and what all of them together count falls by what the step returns. */
  lemma Weights(u: Upload, v: Upload, of: Option<nat>)
    requires Follows(u, v)
    ensures var mine := of.None? || of.value == u.spool;
      && Weigh(v, Outstanding(of)) == Weigh(u, Outstanding(of)) - (if mine then Returned(u, v) else 0)
      && Weigh(v, Running(of)) == Weigh(u, Running(of)) - (if mine then Stopped(u, v) else 0)
  {
  }

  lemma AdvanceSums(us: seq<Upload>, i: nat, v: Upload, of: Option<nat>)
    requires i < |us| && Follows(us[i], v)
    ensures var u := us[i]; var mine := of.None? || of.value == u.spool;
      && Sum(us[i := v], Outstanding(of)) == Sum(us, Outstanding(of)) - (if mine then Returned(u, v) else 0)
      && Sum(us[i := v], Running(of)) == Sum(us, Running(of)) - (if mine then Stopped(u, v) else 0)
  {
    hide Weigh, Returned, Stopped;
    Weights(us[i], v, of);
    SumOfUpdate(us, i, v, Outstanding(of));
    SumOfUpdate(us, i, v, Running(of));
  }

  lemma AdvanceSpool(s: System, step: Step, j: nat)
    requires Inv(s) && Allowed(s, step) && step.Advance? && j < |s.spools|
    ensures j < |Apply(s, step).spools| && SpoolInv(Apply(s, step), j)
  {
    var i := step.upload;
    UploadStep(s.uploads[i], step.event);
    assert SpoolInv(s, j);
    hide UploadInv, Next, Enabled, Sum, Total, Returned, Stopped;
    AdvanceSums(s.uploads, i, Next(s.uploads[i], step.event), Some(j));
  }

  lemma AdvanceGlobal(s: System, step: Step)
    requires Inv(s) && Allowed(s, step) && step.Advance?
    ensures GlobalInv(Apply(s, step))
  {
    var t, i := Apply(s, step), step.upload;
    var k := s.uploads[i].spool;
    UploadStep(s.uploads[i], step.event);
    assert SpoolInv(s, k);
    AdvanceSpool(s, step, k);
    hide UploadInv, Next, Enabled, Sum, Total, Returned, Stopped;
    AdvanceSums(s.uploads, i, Next(s.uploads[i], step.event), None);
    AdvanceSums(s.uploads, i, Next(s.uploads[i], step.event), Some(k));
    TotalOfUpdate(s.spools, k, t.spools[k], true);
    TotalOfUpdate(s.spools, k, t.spools[k], false);
  }

  lemma AdvanceStep(s: System, step: Step)
    requires Inv(s) && Allowed(s, step) && step.Advance?
    ensures Inv(Apply(s, step))
  {
    UploadStep(s.uploads[step.upload], step.event);
    AdvanceGlobal(s, step);
    forall j | 0 <= j < |Apply(s, step).spools|
      ensures SpoolInv(Apply(s, step), j)
    {
      AdvanceSpool(s, step, j);
    }
    hide UploadInv, Next, Enabled, SpoolInv, GlobalInv;
    assert UploadsInv(Apply(s, step));
  }

  lemma SystemStep(s: System, step: Step)
    requires Inv(s) && Allowed(s, step)
    ensures Inv(Apply(s, step))
  {
    match step
    case Construct(_, _) => ConstructStep(s, step);
    case Receive(_, _, _, _) => ReceiveStep(s, step);
    case Advance(_, _) => AdvanceStep(s, step);
  }

  predicate Runs(s: System, steps: seq<Step>)
    decreases |steps|
  {
    steps == [] || (Allowed(s, steps[0]) && Runs(Apply(s, steps[0]), steps[1..]))
  }

  function Final(s: System, steps: seq<Step>): System
    requires Runs(s, steps)
    decreases |steps|
  {
    if steps == [] then s else Final(Apply(s, steps[0]), steps[1..])
  }

  lemma {:induction false} RunInv(s: System, steps: seq<Step>)
    requires Inv(s) && Runs(s, steps)
    ensures Inv(Final(s, steps))
    decreases |steps|
  {
    if steps == [] {
    } else {
      SystemStep(s, steps[0]);
      RunInv(Apply(s, steps[0]), steps[1..]);
    }
  }

  lemma {:induction false} ScratchBelowOutstanding(us: seq<Upload>, of: Option<nat>)
    requires forall i :: 0 <= i < |us| ==> UploadInv(us[i])
    ensures Sum(us, Scratch(of)) <= Sum(us, Outstanding(of))
  {
    if us == [] {
    } else {
      assert UploadInv(us[0]);
      ScratchBelowOutstanding(us[1..], of);
    }
  }

  /** In every reachable state, over any interleaving, failures and retries: the bytes on scratch are covered by
      reservations, of each spooler and of the process, and those are within their ceilings. */
  lemma ScratchIsCovered(steps: seq<Step>, k: nat)
    requires Runs(EMPTY, steps) && k < |Final(EMPTY, steps).spools|
    ensures var s := Final(EMPTY, steps);
      && Sum(s.uploads, Scratch(Some(k))) <= s.spools[k].reserved == Sum(s.uploads, Outstanding(Some(k))) <= s.spools[k].capacity
      && Sum(s.uploads, Scratch(None)) <= s.globalReserved == Total(s.spools, true) <= CAPACITY
      && s.spools[k].active <= s.spools[k].concurrency && s.globalActive == Total(s.spools, false) <= CONCURRENCY
  {
    RunInv(EMPTY, steps);
    var s := Final(EMPTY, steps);
    assert SpoolInv(s, k);
    ScratchBelowOutstanding(s.uploads, Some(k));
    ScratchBelowOutstanding(s.uploads, None);
  }

  /** The counters still hold the share of every upload that has not been released: no subtraction underflows. */
  lemma StillCovered(s: System, i: nat)
    requires Inv(s) && i < |s.uploads|
    ensures var u := s.uploads[i];
      && (!u.disposal.released ==> Reservation(u) <= s.spools[u.spool].reserved && Reservation(u) <= s.globalReserved)
      && (Active(u) ==> 1 <= s.spools[u.spool].active && 1 <= s.globalActive)
  {
    var u := s.uploads[i];
    assert SpoolInv(s, u.spool);
    SumOfUpdate(s.uploads, i, u, Outstanding(Some(u.spool)));
    SumOfUpdate(s.uploads, i, u, Outstanding(None));
    SumOfUpdate(s.uploads, i, u, Running(Some(u.spool)));
    SumOfUpdate(s.uploads, i, u, Running(None));
  }

  /** A reservation leaves the ledger at one kind of step only, the success of a removal, after which nothing of
      the upload is on scratch; and once it has left it never leaves again. */
  lemma ReleasedOnlyByRemoval(s: System, step: Step, i: nat)
    requires Inv(s) && Allowed(s, step) && i < |s.uploads|
    ensures i < |Apply(s, step).uploads|
    ensures var u, v := s.uploads[i], Apply(s, step).uploads[i];
      && (u.disposal.released ==> v.disposal.released)
      && (!u.disposal.released && v.disposal.released ==>
            && step.Advance? && step.upload == i && step.event.Removed? && step.event.ok
            && v.disk.scratch == 0 && !v.disk.directory)
  {
    if step.Advance? && step.upload == i {
      UploadStep(s.uploads[i], step.event);
      ReleaseEvent(s.uploads[i], step.event);
    }
  }

  lemma ReleaseEvent(u: Upload, e: Event)
    requires Enabled(u, e)
    ensures !u.disposal.released && Next(u, e).disposal.released ==>
      e.Removed? && e.ok && Next(u, e).disk.scratch == 0 && !Next(u, e).disk.directory
  {
  }

  /** The counters move at admissions and releases and at no other step. */
  lemma ReservedMovesWithReleases(s: System, step: Step)
    requires Inv(s) && Allowed(s, step) && step.Advance?
    ensures var u, v := s.uploads[step.upload], Apply(s, step).uploads[step.upload];
      && Apply(s, step).globalReserved == s.globalReserved - Returned(u, v)
      && Apply(s, step).spools[u.spool].reserved == s.spools[u.spool].reserved - Returned(u, v)
  {
    var i := step.upload;
    var u, v := s.uploads[i], Next(s.uploads[i], step.event);
    UploadStep(u, step.event);
    hide UploadInv, Next, Enabled, Sum, Total, Returned, Stopped;
    assert SpoolInv(s, u.spool);
    AdvanceSums(s.uploads, i, v, None);
    AdvanceSums(s.uploads, i, v, Some(u.spool));
  }
}
