/** The durable finalization journal: what a crash can leave behind, and what was sent by then. */
module ReleaseJournal {
  import opened Wrappers

  datatype StepName = Verification | Distribution | KoreanNotes | InternalGroup

  datatype Mark = Checking | Attempted | Accepted | Verified

  /** One complete journal file; intents and targets are opaque. */
  datatype Value = Value(intent: nat, target: Option<nat>, steps: map<StepName, Mark>)

  /** A remote mutation that went out, whatever became of the reply. */
  datatype Sending = Sending(step: StepName, intent: nat, target: nat)

  /** The process that holds the lock: the value it last read or wrote, whether its directory entry is synced, and
      the mutations it has recorded as attempted where there was no record before. */
  datatype Live = Live(intent: nat, value: Option<Value>, synced: bool, claims: set<StepName>)

  /** `versions` are the files that a power loss could leave, the last one being the visible one. */
  datatype State = State(versions: seq<Option<Value>>, live: Option<Live>, sent: seq<Sending>)

  datatype Op =
    | Lock(intent: nat)
    | Load
    | Replace(value: Value)
    | SyncDirectory
    | Send(step: StepName)
    | Die
    | PowerLoss(survivor: nat)

  const FRESH: State := State([None], None, [])

  function Initial(intent: nat): Value {
    Value(intent, None, map[])
  }

  function Visible(s: State): Option<Value> {
    if s.versions == [] then None else s.versions[|s.versions| - 1]
  }

  /** What a rewrite of the journal keeps: its intent, a bound target, and every step that has a record. */
  predicate Extends(v: Value, w: Value) {
    w.intent == v.intent && (v.target.Some? ==> w.target == v.target) && v.steps.Keys <= w.steps.Keys
  }

  function Claimed(v: Value, w: Value): set<StepName> {
    set step | step in w.steps && step !in v.steps && w.steps[step].Attempted?
  }

  /** The discipline of the code: a send needs a synced claim of the same process, and a target. */
  predicate Allowed(s: State, op: Op) {
    match op
    case Lock(_) => s.live.None?
    case Load => s.live.Some? && Visible(s).Some? && Visible(s).value.intent == s.live.value.intent
    case Replace(w) =>
      s.live.Some? &&
      (match s.live.value.value
       case Some(v) => Extends(v, w)
       case None => Visible(s).None? && w == Initial(s.live.value.intent))
    case SyncDirectory => s.live.Some?
    case Send(step) =>
      && s.live.Some? && s.live.value.synced && step in s.live.value.claims
      && s.live.value.value.Some? && s.live.value.value.value.target.Some?
    case Die => s.live.Some?
    case PowerLoss(k) => k < |s.versions|
  }

  function Apply(s: State, op: Op): State
    requires Allowed(s, op)
  {
    match op
    case Lock(intent) => s.(live := Some(Live(intent, None, false, {})))
    case Load => s.(live := Some(Live(s.live.value.intent, Visible(s), false, {})))
    case Replace(w) =>
      var claims := if s.live.value.value.Some? then Claimed(s.live.value.value.value, w) else {};
      s.(versions := s.versions + [Some(w)], live := Some(Live(s.live.value.intent, Some(w), false, claims)))
    case SyncDirectory => s.(versions := [Visible(s)], live := Some(s.live.value.(synced := true)))
    case Send(step) =>
      var l := s.live.value;
      s.(sent := s.sent + [Sending(step, l.intent, l.value.value.target.value)],
         live := Some(l.(claims := l.claims - {step})))
    case Die => s.(live := None)
    case PowerLoss(k) => s.(versions := [s.versions[k]], live := None)
  }

  // ---- The invariant ----

  /** Whatever version survives, it shows that this was sent, for which intent and to which target. */
  ghost predicate Remembered(s: State, x: Sending) {
    forall k :: 0 <= k < |s.versions| ==>
      && s.versions[k].Some? && x.step in s.versions[k].value.steps
      && s.versions[k].value.intent == x.intent && s.versions[k].value.target == Some(x.target)
  }

  ghost predicate LiveInv(s: State, l: Live) {
    && (l.value.Some? ==> l.value == Visible(s) && l.value.value.intent == l.intent)
    && (l.claims != {} ==> l.value.Some? && l.claims <= l.value.value.steps.Keys)
    && (l.claims != {} && l.synced ==> |s.versions| == 1)
    && (forall i :: 0 <= i < |s.sent| ==> s.sent[i].step !in l.claims)
  }

  ghost predicate Inv(s: State) {
    && |s.versions| > 0
    && (forall i :: 0 <= i < |s.sent| ==> Remembered(s, s.sent[i]))
    && (forall i, j :: 0 <= i < j < |s.sent| ==> s.sent[i].step != s.sent[j].step)
    && (s.live.Some? ==> LiveInv(s, s.live.value))
  }

  lemma ReplaceStep(s: State, op: Op)
    requires Inv(s) && Allowed(s, op) && op.Replace?
    ensures Inv(Apply(s, op))
  {
    var t := Apply(s, op);
    forall i | 0 <= i < |t.sent|
      ensures Remembered(t, t.sent[i]) && t.sent[i].step !in t.live.value.claims
    {
      assert Remembered(s, s.sent[i]);
      assert Visible(s) == s.versions[|s.versions| - 1];
    }
  }

  lemma SendStep(s: State, op: Op)
    requires Inv(s) && Allowed(s, op) && op.Send?
    ensures Inv(Apply(s, op))
  {
    var t := Apply(s, op);
    forall i | 0 <= i < |t.sent|
      ensures Remembered(t, t.sent[i]) && t.sent[i].step !in t.live.value.claims
    {
      if i < |s.sent| {
        assert Remembered(s, s.sent[i]) && t.sent[i] == s.sent[i];
      } else {
        assert s.versions[0] == Visible(s) && op.step in s.live.value.value.value.steps.Keys;
      }
    }
  }

  lemma OtherStep(s: State, op: Op)
    requires Inv(s) && Allowed(s, op) && !op.Replace? && !op.Send?
    ensures Inv(Apply(s, op))
  {
    var t := Apply(s, op);
    forall i | 0 <= i < |t.sent|
      ensures Remembered(t, t.sent[i])
    {
      assert Remembered(s, s.sent[i]);
    }
  }

  lemma StepInv(s: State, op: Op)
    requires Inv(s) && Allowed(s, op)
    ensures Inv(Apply(s, op))
  {
    match op
    case Replace(_) => ReplaceStep(s, op);
    case Send(_) => SendStep(s, op);
    case _ => OtherStep(s, op);
  }

  predicate Runs(s: State, ops: seq<Op>)
    decreases |ops|
  {
    ops == [] || (Allowed(s, ops[0]) && Runs(Apply(s, ops[0]), ops[1..]))
  }

  function After(s: State, ops: seq<Op>): State
    requires Runs(s, ops)
    decreases |ops|
  {
    if ops == [] then s else After(Apply(s, ops[0]), ops[1..])
  }

  lemma {:induction false} RunsOn(s: State, ops: seq<Op>, op: Op)
    requires Runs(s, ops) && Allowed(After(s, ops), op)
    ensures Runs(s, ops + [op]) && After(s, ops + [op]) == Apply(After(s, ops), op)
    decreases |ops|
  {
    if ops == [] {
      assert (ops + [op])[1..] == [];
    } else {
      RunsOn(Apply(s, ops[0]), ops[1..], op);
      assert (ops + [op])[1..] == ops[1..] + [op];
    }
  }

  lemma {:induction false} RunInv(s: State, ops: seq<Op>)
    requires Inv(s) && Runs(s, ops)
    ensures Inv(After(s, ops))
    decreases |ops|
  {
    if ops == [] {
    } else {
      StepInv(s, ops[0]);
      RunInv(Apply(s, ops[0]), ops[1..]);
    }
  }

  /** Over any invocations, process deaths and power losses: no mutation goes out twice, and all that ever go out
      are for one intent and one target, those that the journal shows whatever version of it survives. */
  lemma SentAtMostOnce(ops: seq<Op>, i: nat, j: nat)
    requires Runs(FRESH, ops) && i < j < |After(FRESH, ops).sent|
    ensures var sent := After(FRESH, ops).sent;
      sent[i].step != sent[j].step && sent[i].intent == sent[j].intent && sent[i].target == sent[j].target
  {
    RunInv(FRESH, ops);
    var s := After(FRESH, ops);
    assert Remembered(s, s.sent[i]) && Remembered(s, s.sent[j]) && s.versions[0].Some?;
  }

  /** Every version that could survive extends `v`. */
  ghost predicate Holds(s: State, v: Value) {
    |s.versions| > 0 && forall k :: 0 <= k < |s.versions| ==> s.versions[k].Some? && Extends(v, s.versions[k].value)
  }

  /** What is durable once stays: the intent, a bound target, and that a step has a record. */
  lemma {:induction false} DurableStays(s: State, ops: seq<Op>, v: Value)
    requires Inv(s) && Runs(s, ops) && Holds(s, v)
    ensures Holds(After(s, ops), v)
    decreases |ops|
  {
    if ops == [] {
    } else {
      StepInv(s, ops[0]);
      assert Visible(s) == s.versions[|s.versions| - 1];
      DurableStays(Apply(s, ops[0]), ops[1..], v);
    }
  }
}
