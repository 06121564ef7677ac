/** The fixed-window rate limiter and its garbage collection.  Times are milliseconds; the three statements of a call
    that read the clock may read different times. */
module RateLimit {
  import opened Wrappers

  datatype Row = Row(used: nat, expires: int)

  /** The clock at the insert, at the select and at the reset. */
  datatype Clock = Clock(insert: int, select: int, reset: int)

  const GRACE: int := 60000
  const BATCH: nat := 100
  const MAX_SECONDS: nat := 86400

  predicate ValidPolicy(limit: int, seconds: int) {
    limit >= 1 && 1 <= seconds <= MAX_SECONDS
  }

  function Length(seconds: nat): int {
    1000 * seconds
  }

  // ---- One bucket ----

  function Inserted(row: Option<Row>, seconds: nat, at: Clock): Row {
    match row case Some(r) => r case None => Row(0, at.insert + Length(seconds))
  }

  predicate Expired(r: Row, at: Clock) {
    r.expires <= at.select
  }

  function Verdict(row: Option<Row>, limit: nat, seconds: nat, at: Clock): bool {
    var r := Inserted(row, seconds, at);
    Expired(r, at) || r.used < limit
  }

  function Consumed(row: Option<Row>, limit: nat, seconds: nat, at: Clock): Row {
    var r := Inserted(row, seconds, at);
    if Expired(r, at) then Row(1, at.reset + Length(seconds))
    else if r.used >= limit then r
    else Row(r.used + 1, r.expires)
  }

  /** The bucket that a call recreates after collection is the one that it would have reset. */
  predicate Recreates(seconds: nat, at: Clock) {
    at.insert == at.reset || at.insert + Length(seconds) <= at.select
  }

  // ---- Admission over any interval ----

  datatype Event = Call(at: Clock) | Collection(g: int)

  /** All readings come one after another, starting no earlier than `now`. */
  ghost predicate Monotone(now: int, es: seq<Event>)
    decreases |es|
  {
    es == [] ||
    (match es[0]
     case Call(at) => now <= at.insert <= at.select <= at.reset && Monotone(at.reset, es[1..])
     case Collection(g) => now <= g && Monotone(g, es[1..]))
  }

  function Collected(row: Option<Row>, g: int): Option<Row> {
    if row.Some? && row.value.expires < g - GRACE then None else row
  }

  /** How many calls, by the time their verdict fell, were admitted from `a` up to `a + seconds`.  A collection may
      take an expired bucket, or leave it to a later one. */
  ghost predicate Admits(row: Option<Row>, limit: nat, seconds: nat, es: seq<Event>, a: int, n: nat)
    decreases |es|
  {
    if es == [] then n == 0
    else match es[0]
      case Call(at) =>
        var counted := if Verdict(row, limit, seconds, at) && a <= at.select < a + Length(seconds) then 1 else 0;
        n >= counted && Admits(Some(Consumed(row, limit, seconds, at)), limit, seconds, es[1..], a, n - counted)
      case Collection(g) =>
        Admits(row, limit, seconds, es[1..], a, n) || Admits(Collected(row, g), limit, seconds, es[1..], a, n)
  }

  /** What `n` admissions so far say of the bucket: all in the current window; or a full window before it and the
      current one outlasts the interval; or the interval is over. */
  ghost predicate Counted(row: Option<Row>, limit: nat, seconds: nat, now: int, a: int, n: nat) {
    && (n > 0 ==> now >= a)
    && (row.Some? ==> row.value.used <= limit)
    && (|| (n <= limit && row.None?)
        || (row.Some? && n <= row.value.used)
        || (row.Some? && n <= limit + row.value.used && row.value.expires >= a + Length(seconds))
        || (now >= a + Length(seconds) && n <= 2 * limit))
  }

  lemma CallCounts(row: Option<Row>, limit: nat, seconds: nat, now: int, a: int, n: nat, at: Clock)
    requires limit >= 1 && Counted(row, limit, seconds, now, a, n) && now <= at.insert <= at.select <= at.reset
    ensures var counted := if Verdict(row, limit, seconds, at) && a <= at.select < a + Length(seconds) then 1 else 0;
      Counted(Some(Consumed(row, limit, seconds, at)), limit, seconds, at.reset, a, n + counted)
  {
  }

  lemma {:induction false} AtMostTwoWindows(row: Option<Row>, limit: nat, seconds: nat, now: int, es: seq<Event>, a: int, before: nat, n: nat)
    requires limit >= 1 && Monotone(now, es) && Counted(row, limit, seconds, now, a, before)
    requires Admits(row, limit, seconds, es, a, n)
    ensures before + n <= 2 * limit
    decreases |es|
  {
    if es == [] {
    } else {
      match es[0]
      case Call(at) =>
        var counted := if Verdict(row, limit, seconds, at) && a <= at.select < a + Length(seconds) then 1 else 0;
        CallCounts(row, limit, seconds, now, a, before, at);
        AtMostTwoWindows(Some(Consumed(row, limit, seconds, at)), limit, seconds, at.reset, es[1..], a, before + counted, n - counted);
      case Collection(g) =>
        var kept := if Admits(row, limit, seconds, es[1..], a, n) then row else Collected(row, g);
        AtMostTwoWindows(kept, limit, seconds, g, es[1..], a, before, n);
    }
  }

  /** Under a clock that does not go back, a fresh bucket never admits more than twice its limit within any interval
      of its length, collections or not. */
  lemma TwiceTheLimit(limit: nat, seconds: nat, now: int, es: seq<Event>, a: int, n: nat)
    requires limit >= 1 && Monotone(now, es) && Admits(None, limit, seconds, es, a, n)
    ensures n <= 2 * limit
  {
    AtMostTwoWindows(None, limit, seconds, now, es, a, 0, n);
  }

  // ---- The table, with and without collection ----

  datatype Action = Consume(key: nat, limit: nat, seconds: nat, at: Clock) | Collect(g: int, keys: set<nat>)

  function Get(rows: map<nat, Row>, key: nat): Option<Row> {
    if key in rows then Some(rows[key]) else None
  }

  predicate Possible(rows: map<nat, Row>, action: Action) {
    action.Collect? ==> forall key :: key in action.keys ==> key in rows && rows[key].expires < action.g - GRACE
  }

  function Apply(rows: map<nat, Row>, action: Action): map<nat, Row> {
    match action
    case Consume(key, limit, seconds, at) => rows[key := Consumed(Get(rows, key), limit, seconds, at)]
    case Collect(_, keys) => rows - keys
  }

  predicate Runs(rows: map<nat, Row>, actions: seq<Action>)
    decreases |actions|
  {
    actions == [] || (Possible(rows, actions[0]) && Runs(Apply(rows, actions[0]), actions[1..]))
  }

  function Verdicts(rows: map<nat, Row>, actions: seq<Action>): seq<bool>
    decreases |actions|
  {
    if actions == [] then []
    else (if actions[0].Consume? then [Verdict(Get(rows, actions[0].key), actions[0].limit, actions[0].seconds, actions[0].at)] else [])
         + Verdicts(Apply(rows, actions[0]), actions[1..])
  }

  function WithoutCollection(actions: seq<Action>): seq<Action> {
    if actions == [] then []
    else (if actions[0].Consume? then [actions[0]] else []) + WithoutCollection(actions[1..])
  }

  /** `gone` has the buckets collected since their last call, each with the time before which it had expired. */
  function Later(gone: map<nat, int>, g: int, keys: set<nat>): map<nat, int> {
    map key | key in gone.Keys + keys ::
      if key in keys && (key !in gone || gone[key] < g - GRACE) then g - GRACE else gone[key]
  }

  /** A call on a collected bucket selects no more than the grace period before the collection, and recreates. */
  predicate Tolerable(gone: map<nat, int>, actions: seq<Action>)
    decreases |actions|
  {
    actions == [] ||
    (match actions[0]
     case Consume(key, _, seconds, at) =>
       && (key in gone ==> at.select >= gone[key] - 1 && Recreates(seconds, at))
       && Tolerable(gone - {key}, actions[1..])
     case Collect(g, keys) => Tolerable(Later(gone, g, keys), actions[1..]))
  }

  /** The same buckets, but for those collected, which the other table still has, expired. */
  ghost predicate SameButCollected(rows: map<nat, Row>, others: map<nat, Row>, gone: map<nat, int>) {
    && (forall key :: key in rows ==> key in others && others[key] == rows[key])
    && (forall key :: key in others && key !in rows ==> key in gone && others[key].expires < gone[key])
  }

  /** For a bucket that has been collected: the call is admitted either way, and the bucket it leaves is the same
      exactly when the call recreates. */
  lemma CollectedCall(r: Row, limit: nat, seconds: nat, at: Clock)
    requires limit >= 1 && Expired(r, at)
    ensures Verdict(None, limit, seconds, at) && Verdict(Some(r), limit, seconds, at)
    ensures Consumed(None, limit, seconds, at) == Consumed(Some(r), limit, seconds, at) <==> Recreates(seconds, at)
  {
  }

  /** The grace period is exact: the verdict is the same whatever a collected bucket held, exactly if the select
      comes no earlier than the last expiry that could have been collected. */
  lemma GraceIsExact(limit: nat, seconds: nat, at: Clock, horizon: int)
    requires limit >= 1
    ensures (forall r: Row :: r.expires < horizon ==> Verdict(Some(r), limit, seconds, at) == Verdict(None, limit, seconds, at))
       <==> at.select >= horizon - 1
  {
    if at.select < horizon - 1 {
      var full := Row(limit, horizon - 1);
      assert full.expires < horizon && !Verdict(Some(full), limit, seconds, at);
    }
  }

  lemma ConsumeKeeps(rows: map<nat, Row>, others: map<nat, Row>, gone: map<nat, int>, key: nat, limit: nat, seconds: nat, at: Clock)
    requires SameButCollected(rows, others, gone) && limit >= 1
    requires key in gone ==> at.select >= gone[key] - 1 && Recreates(seconds, at)
    ensures Verdict(Get(rows, key), limit, seconds, at) == Verdict(Get(others, key), limit, seconds, at)
    ensures var action := Consume(key, limit, seconds, at);
      SameButCollected(Apply(rows, action), Apply(others, action), gone - {key})
  {
    if key !in rows && key in others {
      CollectedCall(others[key], limit, seconds, at);
    }
    hide Verdict, Consumed, Recreates;
  }

  lemma CollectKeeps(rows: map<nat, Row>, others: map<nat, Row>, gone: map<nat, int>, g: int, keys: set<nat>)
    requires SameButCollected(rows, others, gone) && Possible(rows, Collect(g, keys))
    ensures SameButCollected(Apply(rows, Collect(g, keys)), others, Later(gone, g, keys))
  {
  }

  lemma {:induction false} CollectionIsInvisible(rows: map<nat, Row>, others: map<nat, Row>, gone: map<nat, int>, actions: seq<Action>)
    requires SameButCollected(rows, others, gone) && Runs(rows, actions) && Tolerable(gone, actions)
    requires forall i :: 0 <= i < |actions| && actions[i].Consume? ==> actions[i].limit >= 1
    ensures Verdicts(rows, actions) == Verdicts(others, WithoutCollection(actions))
    decreases |actions|
  {
    hide SameButCollected, Verdict, Apply, Later, Possible, Recreates;
    if actions == [] {
    } else {
      var action, rest := actions[0], actions[1..];
      match action
      case Consume(key, limit, seconds, at) =>
        ConsumeKeeps(rows, others, gone, key, limit, seconds, at);
        CollectionIsInvisible(Apply(rows, action), Apply(others, action), gone - {key}, rest);
        assert WithoutCollection(actions)[1..] == WithoutCollection(rest);
      case Collect(g, keys) =>
        CollectKeeps(rows, others, gone, g, keys);
        CollectionIsInvisible(Apply(rows, action), others, Later(gone, g, keys), rest);
        assert WithoutCollection(actions) == WithoutCollection(rest);
    }
  }

  /** From an empty table, a run with collections anywhere admits exactly the calls that the run without them does,
      if the calls that come upon a collected bucket are tolerable. */
  lemma SameAdmissions(actions: seq<Action>)
    requires Runs(map[], actions) && Tolerable(map[], actions)
    requires forall i :: 0 <= i < |actions| && actions[i].Consume? ==> actions[i].limit >= 1
    ensures Verdicts(map[], actions) == Verdicts(map[], WithoutCollection(actions))
  {
    CollectionIsInvisible(map[], map[], map[], actions);
  }

  // ---- Under a clock that does not go back ----

  /** All readings come one after another, starting no earlier than `now`. */
  ghost predicate InOrder(now: int, actions: seq<Action>)
    decreases |actions|
  {
    actions == [] ||
    (match actions[0]
     case Consume(_, _, _, at) => now <= at.insert <= at.select <= at.reset && InOrder(at.reset, actions[1..])
     case Collect(g, _) => now <= g && InOrder(g, actions[1..]))
  }

  predicate Valid(actions: seq<Action>) {
    forall i :: 0 <= i < |actions| && actions[i].Consume? ==> ValidPolicy(actions[i].limit, actions[i].seconds)
  }

  /** Every call on a bucket collected since its last call, `gone` at first, recreates it. */
  predicate Recreating(gone: set<nat>, actions: seq<Action>)
    decreases |actions|
  {
    actions == [] ||
    (match actions[0]
     case Consume(key, _, seconds, at) => (key in gone ==> Recreates(seconds, at)) && Recreating(gone - {key}, actions[1..])
     case Collect(_, keys) => Recreating(gone + keys, actions[1..]))
  }

  /** What has been collected had expired for the grace period. */
  ghost predicate LongGone(gone: map<nat, int>, now: int) {
    forall key :: key in gone ==> gone[key] <= now - GRACE
  }

  lemma {:induction false} TolerableInOrder(gone: map<nat, int>, now: int, actions: seq<Action>)
    requires LongGone(gone, now) && InOrder(now, actions) && Recreating(gone.Keys, actions)
    ensures Tolerable(gone, actions)
    decreases |actions|
  {
    if actions == [] {
    } else {
      match actions[0]
      case Consume(key, _, _, at) =>
        assert (gone - {key}).Keys == gone.Keys - {key};
        TolerableInOrder(gone - {key}, at.reset, actions[1..]);
      case Collect(g, keys) =>
        assert Later(gone, g, keys).Keys == gone.Keys + keys;
        TolerableInOrder(Later(gone, g, keys), g, actions[1..]);
    }
  }

  predicate SameVerdicts(actions: seq<Action>) {
    Verdicts(map[], actions) == Verdicts(map[], WithoutCollection(actions))
  }

  /** That the calls on collected buckets recreate is then all it takes. */
  lemma SameAdmissionsInOrder(now: int, actions: seq<Action>)
    requires Runs(map[], actions) && InOrder(now, actions) && Recreating({}, actions)
    requires forall i :: 0 <= i < |actions| && actions[i].Consume? ==> actions[i].limit >= 1
    ensures SameVerdicts(actions)
  {
    var none: map<nat, int> := map[];
    assert none.Keys == {};
    TolerableInOrder(none, now, actions);
    SameAdmissions(actions);
  }

  // ---- And it does take that ----

  /** `n` more calls, all at the time `t`. */
  function Calls(key: nat, limit: nat, seconds: nat, t: int, n: nat): (calls: seq<Action>)
    ensures |calls| == n && forall i :: 0 <= i < n ==> calls[i] == Consume(key, limit, seconds, Clock(t, t, t))
  {
    seq(n, _ => Consume(key, limit, seconds, Clock(t, t, t)))
  }

  /** When a call finds neither bucket older than the call before it, and the recreated one expired. */
  function AskAt(seconds: nat, at: Clock): int {
    if at.reset < at.insert + Length(seconds) then at.insert + Length(seconds) else at.reset
  }

  /** All but one of the calls that fill the bucket, and one more as soon as the recreated bucket has expired. */
  function Probe(key: nat, limit: nat, seconds: nat, at: Clock): seq<Action>
    requires limit >= 1
  {
    Calls(key, limit, seconds, at.reset, limit - 1) + Calls(key, limit, seconds, AskAt(seconds, at), 1)
  }

  /** Calls at one time on a bucket that lasts for all of them. */
  lemma {:induction false} Fill(rows: map<nat, Row>, key: nat, limit: nat, seconds: nat, t: int, n: nat, last: seq<Action>)
    requires key in rows && rows[key].used + n <= limit && rows[key].expires > t
    ensures var filled := Verdicts(rows[key := Row(rows[key].used + n, rows[key].expires)], last);
      var all := Verdicts(rows, Calls(key, limit, seconds, t, n) + last);
      |all| == n + |filled| && all[n..] == filled
    decreases n
  {
    if n == 0 {
      assert rows[key := Row(rows[key].used, rows[key].expires)] == rows;
      assert Calls(key, limit, seconds, t, 0) + last == last;
    } else {
      var all := Calls(key, limit, seconds, t, n) + last;
      assert all[1..] == Calls(key, limit, seconds, t, n - 1) + last;
      var next := Apply(rows, all[0]);
      Fill(next, key, limit, seconds, t, n - 1, last);
      assert next[key := Row(next[key].used + (n - 1), next[key].expires)] == rows[key := Row(rows[key].used + n, rows[key].expires)];
    }
  }

  lemma OneCall(rows: map<nat, Row>, key: nat, limit: nat, seconds: nat, t: int)
    ensures Verdicts(rows, Calls(key, limit, seconds, t, 1)) == [Verdict(Get(rows, key), limit, seconds, Clock(t, t, t))]
  {
    var calls := Calls(key, limit, seconds, t, 1);
    assert calls[1..] == [] && Verdicts(Apply(rows, calls[0]), []) == [];
  }

  /** The probe of a bucket that was reset: the last call is refused. */
  lemma ProbeOfReset(rows: map<nat, Row>, key: nat, limit: nat, seconds: nat, at: Clock)
    requires limit >= 1 && seconds >= 1 && at.insert < at.reset
    requires key in rows && rows[key] == Row(1, at.reset + Length(seconds))
    ensures |Verdicts(rows, Probe(key, limit, seconds, at))| == limit && !Verdicts(rows, Probe(key, limit, seconds, at))[limit - 1]
  {
    var t := AskAt(seconds, at);
    var last, filled := Calls(key, limit, seconds, t, 1), rows[key := Row(limit, rows[key].expires)];
    Fill(rows, key, limit, seconds, at.reset, limit - 1, last);
    OneCall(filled, key, limit, seconds, t);
    var all := Verdicts(rows, Probe(key, limit, seconds, at));
    assert all[limit - 1..] == [false];
    assert all[limit - 1] == all[limit - 1..][0];
  }

  /** The probe of a bucket that was recreated: the last call is admitted. */
  lemma ProbeOfRecreated(rows: map<nat, Row>, key: nat, limit: nat, seconds: nat, at: Clock)
    requires limit >= 1 && seconds >= 1 && at.insert < at.reset
    requires key in rows && rows[key] == Row(1, at.insert + Length(seconds))
    ensures |Verdicts(rows, Probe(key, limit, seconds, at))| == limit && Verdicts(rows, Probe(key, limit, seconds, at))[limit - 1]
  {
    var t := AskAt(seconds, at);
    var last, all := Calls(key, limit, seconds, t, 1), Verdicts(rows, Probe(key, limit, seconds, at));
    if at.reset < at.insert + Length(seconds) {
      Fill(rows, key, limit, seconds, at.reset, limit - 1, last);
      OneCall(rows[key := Row(limit, rows[key].expires)], key, limit, seconds, t);
    } else if limit == 1 {
      assert Probe(key, limit, seconds, at) == last;
      OneCall(rows, key, limit, seconds, t);
    } else {
      var probe := Probe(key, limit, seconds, at);
      assert probe[1..] == Calls(key, limit, seconds, t, limit - 2) + last;
      var next := Apply(rows, probe[0]);
      Fill(next, key, limit, seconds, t, limit - 2, last);
      OneCall(next[key := Row(limit - 1, next[key].expires)], key, limit, seconds, t);
      assert all[1..] == Verdicts(next, probe[1..]);
      assert all[limit - 1..] == all[1..][limit - 2..];
    }
    assert all[limit - 1..] == [true];
    assert all[limit - 1] == all[limit - 1..][0];
  }

  lemma {:induction false} ProbeInOrder(key: nat, limit: nat, seconds: nat, at: Clock, n: nat)
    requires ValidPolicy(limit, seconds) && n <= limit
    ensures InOrder(at.reset, Probe(key, limit, seconds, at)[n..])
    decreases limit - n
  {
    var rest := Probe(key, limit, seconds, at)[n..];
    if n == limit {
    } else {
      ProbeInOrder(key, limit, seconds, at, n + 1);
      assert rest[1..] == Probe(key, limit, seconds, at)[n + 1..];
    }
  }

  /** On a bucket that one table has lost to a collection, a call that does not recreate it leaves the two tables so
      that the probe tells them apart. */
  lemma ProbeTells(rows: map<nat, Row>, others: map<nat, Row>, key: nat, limit: nat, seconds: nat, at: Clock)
    requires ValidPolicy(limit, seconds) && at.insert <= at.select <= at.reset && !Recreates(seconds, at)
    requires key !in rows && key in others && Expired(others[key], at)
    ensures var call, probe := Consume(key, limit, seconds, at), Probe(key, limit, seconds, at);
      Verdicts(Apply(rows, call), probe) != Verdicts(Apply(others, call), probe)
  {
    var call := Consume(key, limit, seconds, at);
    ProbeOfRecreated(Apply(rows, call), key, limit, seconds, at);
    ProbeOfReset(Apply(others, call), key, limit, seconds, at);
  }

  /** Whatever follows a call on a collected bucket, in order, has the same verdicts as without the collection exactly
      when the call recreates.  It does not when the clock has moved between its insert and its reset and it found its
      own insert unexpired. */
  lemma DistinguishableIffNotRecreated(rows: map<nat, Row>, r: Row, key: nat, limit: nat, seconds: nat, at: Clock)
    requires ValidPolicy(limit, seconds) && at.insert <= at.select <= at.reset && key !in rows && Expired(r, at)
    ensures var call := Consume(key, limit, seconds, at);
      (forall later :: InOrder(at.reset, later) ==> Verdicts(Apply(rows, call), later) == Verdicts(Apply(rows[key := r], call), later))
      <==> Recreates(seconds, at)
  {
    var call := Consume(key, limit, seconds, at);
    CollectedCall(r, limit, seconds, at);
    if Recreates(seconds, at) {
      assert Apply(rows, call) == Apply(rows[key := r], call);
    } else {
      var probe := Probe(key, limit, seconds, at);
      ProbeTells(rows, rows[key := r], key, limit, seconds, at);
      ProbeInOrder(key, limit, seconds, at, 0);
      assert probe[0..] == probe;
    }
  }

  // ---- Over whole runs ----

  predicate OnlyCalls(actions: seq<Action>) {
    forall i :: 0 <= i < |actions| ==> actions[i].Consume?
  }

  /** Calls whose statements all read the same time. */
  predicate Instant(actions: seq<Action>) {
    forall i :: 0 <= i < |actions| ==> actions[i].Consume? && actions[i].at.insert == actions[i].at.select == actions[i].at.reset
  }

  lemma {:induction false} CallsStay(calls: seq<Action>)
    requires OnlyCalls(calls)
    ensures WithoutCollection(calls) == calls
  {
    if calls == [] {
    } else {
      CallsStay(calls[1..]);
    }
  }

  lemma {:induction false} CallsRun(rows: map<nat, Row>, gone: set<nat>, calls: seq<Action>)
    requires Instant(calls)
    ensures Runs(rows, calls) && Recreating(gone, calls)
    decreases |calls|
  {
    if calls == [] {
    } else {
      CallsRun(Apply(rows, calls[0]), gone - {calls[0].key}, calls[1..]);
    }
  }

  /** A beginning of a run, and instant calls after it. */
  ghost predicate Continuation(now: int, actions: seq<Action>, k: nat, calls: seq<Action>) {
    k <= |actions| && Instant(calls) && Valid(calls) && InOrder(now, actions[..k] + calls)
  }

  lemma {:induction false} BeginningRuns(rows: map<nat, Row>, gone: set<nat>, actions: seq<Action>, k: nat, calls: seq<Action>)
    requires k <= |actions| && Runs(rows, actions) && Instant(calls)
    ensures Runs(rows, actions[..k] + calls)
    ensures Recreating(gone, actions) ==> Recreating(gone, actions[..k] + calls)
    decreases k
  {
    var run := actions[..k] + calls;
    if k == 0 {
      assert run == calls;
      CallsRun(rows, gone, calls);
    } else {
      var gone' := match actions[0] case Consume(key, _, _, _) => gone - {key} case Collect(_, keys) => gone + keys;
      BeginningRuns(Apply(rows, actions[0]), gone', actions[1..], k - 1, calls);
      assert run[0] == actions[0] && run[1..] == actions[1..][..k - 1] + calls;
    }
  }

  /** What collection has taken from one table, the other still has. */
  ghost predicate Kept(rows: map<nat, Row>, others: map<nat, Row>, gone: map<nat, int>) {
    forall key :: key in gone ==> key in others && key !in rows
  }

  /** The tables of one run, with and without its collections, so far. */
  ghost predicate Tables(now: int, rows: map<nat, Row>, others: map<nat, Row>, gone: map<nat, int>) {
    SameButCollected(rows, others, gone) && Kept(rows, others, gone) && LongGone(gone, now)
  }

  lemma TablesAfterCall(now: int, rows: map<nat, Row>, others: map<nat, Row>, gone: map<nat, int>, action: Action)
    requires Tables(now, rows, others, gone) && action.Consume? && action.limit >= 1
    requires now <= action.at.insert <= action.at.select <= action.at.reset
    requires action.key in gone ==> Recreates(action.seconds, action.at)
    ensures Verdict(Get(rows, action.key), action.limit, action.seconds, action.at)
         == Verdict(Get(others, action.key), action.limit, action.seconds, action.at)
    ensures Tables(action.at.reset, Apply(rows, action), Apply(others, action), gone - {action.key})
    ensures (gone - {action.key}).Keys == gone.Keys - {action.key}
  {
    ConsumeKeeps(rows, others, gone, action.key, action.limit, action.seconds, action.at);
    hide SameButCollected, Verdict, Recreates, Consumed;
  }

  lemma TablesAfterCollection(now: int, rows: map<nat, Row>, others: map<nat, Row>, gone: map<nat, int>, action: Action)
    requires Tables(now, rows, others, gone) && action.Collect? && Possible(rows, action) && now <= action.g
    ensures Tables(action.g, Apply(rows, action), others, Later(gone, action.g, action.keys))
    ensures Later(gone, action.g, action.keys).Keys == gone.Keys + action.keys
  {
    CollectKeeps(rows, others, gone, action.g, action.keys);
  }

  lemma OneAction(rows: map<nat, Row>, action: Action, rest: seq<Action>)
    ensures Runs(rows, [action] + rest) <==> Possible(rows, action) && Runs(Apply(rows, action), rest)
    ensures Verdicts(rows, [action] + rest)
         == (if action.Consume? then [Verdict(Get(rows, action.key), action.limit, action.seconds, action.at)] else [])
            + Verdicts(Apply(rows, action), rest)
    ensures WithoutCollection([action] + rest) == (if action.Consume? then [action] else []) + WithoutCollection(rest)
  {
    assert ([action] + rest)[1..] == rest;
  }

  /** A difference behind one more action. */
  lemma StillTold(rows: map<nat, Row>, others: map<nat, Row>, action: Action, rest: seq<Action>)
    requires action.Consume? ==>
      Verdict(Get(rows, action.key), action.limit, action.seconds, action.at)
        == Verdict(Get(others, action.key), action.limit, action.seconds, action.at)
    requires Verdicts(Apply(rows, action), rest)
          != Verdicts(if action.Consume? then Apply(others, action) else others, WithoutCollection(rest))
    ensures Verdicts(rows, [action] + rest) != Verdicts(others, WithoutCollection([action] + rest))
  {
    hide Verdict, Apply;
    OneAction(rows, action, rest);
    if action.Consume? {
      OneAction(others, action, WithoutCollection(rest));
      var one := [Verdict(Get(rows, action.key), action.limit, action.seconds, action.at)];
      var xs, ys := Verdicts(Apply(rows, action), rest), Verdicts(Apply(others, action), WithoutCollection(rest));
      assert (one + xs)[1..] == xs && (one + ys)[1..] == ys;
    } else {
      assert [] + Verdicts(Apply(rows, action), rest) == Verdicts(Apply(rows, action), rest);
      assert [] + WithoutCollection(rest) == WithoutCollection(rest);
    }
  }

  /** A run with a call that comes upon a collected bucket and does not recreate it: up to that call, instant calls
      can follow that tell. */
  lemma {:induction false} Told(now: int, rows: map<nat, Row>, others: map<nat, Row>, gone: map<nat, int>, actions: seq<Action>)
    returns (k: nat, calls: seq<Action>)
    requires Tables(now, rows, others, gone) && Runs(rows, actions) && InOrder(now, actions) && Valid(actions)
    requires !Recreating(gone.Keys, actions)
    ensures Continuation(now, actions, k, calls)
    ensures Verdicts(rows, actions[..k] + calls) != Verdicts(others, WithoutCollection(actions[..k] + calls))
    decreases |actions|
  {
    hide Tables, Verdict, Recreates, Possible;
    var action, rest := actions[0], actions[1..];
    if action.Consume? && action.key in gone && !Recreates(action.seconds, action.at) {
      k, calls := 1, Probe(action.key, action.limit, action.seconds, action.at);
      ToldAtOnce(now, rows, others, gone, action);
      assert actions[..1] == [action];
    } else if action.Consume? {
      TablesAfterCall(now, rows, others, gone, action);
      k, calls := Told(action.at.reset, Apply(rows, action), Apply(others, action), gone - {action.key}, rest);
      StillTold(rows, others, action, rest[..k] + calls);
      k := k + 1;
      Prefixed(actions, k, calls);
    } else {
      TablesAfterCollection(now, rows, others, gone, action);
      k, calls := Told(action.g, Apply(rows, action), others, Later(gone, action.g, action.keys), rest);
      StillTold(rows, others, action, rest[..k] + calls);
      k := k + 1;
      Prefixed(actions, k, calls);
    }
  }

  lemma Prefixed(actions: seq<Action>, k: nat, calls: seq<Action>)
    requires 1 <= k <= |actions|
    ensures actions[..k] + calls == [actions[0]] + (actions[1..][..k - 1] + calls)
    ensures (actions[..k] + calls)[1..] == actions[1..][..k - 1] + calls
  {
  }

  lemma ToldAtOnce(now: int, rows: map<nat, Row>, others: map<nat, Row>, gone: map<nat, int>, action: Action)
    requires Tables(now, rows, others, gone) && InOrder(now, [action])
    requires action.Consume? && action.key in gone && ValidPolicy(action.limit, action.seconds) && !Recreates(action.seconds, action.at)
    ensures var probe := Probe(action.key, action.limit, action.seconds, action.at);
      && Instant(probe) && Valid(probe) && InOrder(now, [action] + probe)
      && Verdicts(rows, [action] + probe) != Verdicts(others, WithoutCollection([action] + probe))
  {
    var probe := Probe(action.key, action.limit, action.seconds, action.at);
    var run := [action] + probe;
    assert run[1..] == probe;
    ProbeTells(rows, others, action.key, action.limit, action.seconds, action.at);
    ProbeInOrder(action.key, action.limit, action.seconds, action.at, 0);
    assert probe[0..] == probe;
    CallsStay(run);
    assert Verdicts(rows, run)[1..] == Verdicts(Apply(rows, action), probe);
    assert Verdicts(others, run)[1..] == Verdicts(Apply(others, action), probe);
  }

  /** The exact condition, for any run in order from an empty table: no beginning of it, whatever instant calls follow,
      has other verdicts for its collections, exactly if its calls on collected buckets recreate. */
  lemma InvisibleIffRecreating(now: int, actions: seq<Action>)
    requires Runs(map[], actions) && InOrder(now, actions) && Valid(actions)
    ensures (forall k: nat, calls :: Continuation(now, actions, k, calls) ==> SameVerdicts(actions[..k] + calls))
       <==> Recreating({}, actions)
  {
    if Recreating({}, actions) {
      forall k: nat, calls | Continuation(now, actions, k, calls)
        ensures SameVerdicts(actions[..k] + calls)
      {
        BeginningRuns(map[], {}, actions, k, calls);
        SameAdmissionsInOrder(now, actions[..k] + calls);
      }
    } else {
      var none: map<nat, int> := map[];
      assert none.Keys == {};
      var k, calls := Told(now, map[], map[], none, actions);
    }
  }

  /** One more action of a run, of which the verdict and the table after it are known. */
  lemma OneMore(rows: map<nat, Row>, action: Action, next: map<nat, Row>, admitted: bool, rest: seq<Action>)
    requires Possible(rows, action) && Apply(rows, action) == next
    requires action.Consume? ==> Verdict(Get(rows, action.key), action.limit, action.seconds, action.at) == admitted
    ensures Runs(rows, [action] + rest) <==> Runs(next, rest)
    ensures Verdicts(rows, [action] + rest) == (if action.Consume? then [admitted] else []) + Verdicts(next, rest)
    ensures WithoutCollection([action] + rest) == (if action.Consume? then [action] else []) + WithoutCollection(rest)
  {
    hide Possible, Apply, Verdict;
    OneAction(rows, action, rest);
  }

  function CallAt(key: nat, seconds: nat, t: int): Action {
    Consume(key, 1, seconds, Clock(t, t, t))
  }

  /** A call, perhaps a collection of its bucket, a call by the clock `at`, and one as soon as the bucket of that would
      have expired if it was recreated. */
  function Telling(key: nat, seconds: nat, start: int, collection: seq<Action>, at: Clock): seq<Action> {
    [CallAt(key, seconds, start)]
    + (collection + ([Consume(key, 1, seconds, at)] + ([CallAt(key, seconds, AskAt(seconds, at))] + [])))
  }

  lemma TellingCollected(key: nat, seconds: nat, start: int, g: int, at: Clock)
    requires start + Length(seconds) < g - GRACE && at.insert <= at.select <= at.reset && !Recreates(seconds, at)
    ensures var run := Telling(key, seconds, start, [Collect(g, {key})], at);
      Runs(map[], run) && Verdicts(map[], run) == [true, true, true] && WithoutCollection(run) == Telling(key, seconds, start, [], at)
  {
    var first, gone, next, last :=
      CallAt(key, seconds, start), Collect(g, {key}), Consume(key, 1, seconds, at), CallAt(key, seconds, AskAt(seconds, at));
    var none: map<nat, Row> := map[];
    var once, again := map[key := Row(1, start + Length(seconds))], map[key := Row(1, at.insert + Length(seconds))];
    var after := Apply(again, last);
    assert Apply(none, first) == once && Possible(once, gone) && Apply(once, gone) == none && Apply(none, next) == again;
    assert Runs(after, []) && Verdicts(after, []) == [] && WithoutCollection([]) == [];
    hide Apply, Verdicts, Runs, WithoutCollection, Recreates;
    OneMore(again, last, after, true, []);
    OneMore(none, next, again, true, [last] + []);
    OneMore(once, gone, none, true, [next] + ([last] + []));
    OneMore(none, first, once, true, [gone] + ([next] + ([last] + [])));
    assert [] + ([next] + ([last] + [])) == [next] + ([last] + []);
  }

  lemma TellingKept(key: nat, seconds: nat, start: int, at: Clock)
    requires start + Length(seconds) <= at.insert <= at.select <= at.reset && !Recreates(seconds, at)
    ensures Verdicts(map[], Telling(key, seconds, start, [], at)) == [true, true, false]
  {
    var first, next, last := CallAt(key, seconds, start), Consume(key, 1, seconds, at), CallAt(key, seconds, AskAt(seconds, at));
    var none: map<nat, Row> := map[];
    var once, again := map[key := Row(1, start + Length(seconds))], map[key := Row(1, at.reset + Length(seconds))];
    var after := Apply(again, last);
    assert Apply(none, first) == once && Apply(once, next) == again && Verdicts(after, []) == [];
    hide Apply, Verdicts, Runs, WithoutCollection, Recreates;
    OneMore(again, last, after, false, []);
    OneMore(once, next, again, true, [last] + []);
    OneMore(none, first, once, true, [next] + ([last] + []));
    assert [] + ([next] + ([last] + [])) == [next] + ([last] + []);
  }

  /** It does come about, whenever a bucket was collected and the next call does not recreate it: from an empty table the
      last of three calls is admitted because of the collection. */
  lemma CollectionAdmitsOneMore(key: nat, seconds: nat, start: int, g: int, at: Clock)
    requires start + Length(seconds) < g - GRACE && g <= at.insert <= at.select <= at.reset && !Recreates(seconds, at)
    ensures var run := Telling(key, seconds, start, [Collect(g, {key})], at);
      && Runs(map[], run) && InOrder(start, run)
      && Verdicts(map[], run) == [true, true, true] && Verdicts(map[], WithoutCollection(run)) == [true, true, false]
  {
    TellingCollected(key, seconds, start, g, at);
    TellingKept(key, seconds, start, at);
    var tail := [Consume(key, 1, seconds, at)] + ([CallAt(key, seconds, AskAt(seconds, at))] + []);
    assert InOrder(g, tail) by {
      assert tail[1..] == [CallAt(key, seconds, AskAt(seconds, at))];
    }
    var run := Telling(key, seconds, start, [Collect(g, {key})], at);
    assert run[1..] == [Collect(g, {key})] + tail && run[1..][1..] == tail;
  }

  /** A bucket for a second, collected a minute and eight seconds after its end, and a millisecond in one call. */
  lemma CollectionChangesAdmission()
    ensures var run := Telling(1, 1, 0, [Collect(69000, {1})], Clock(70000, 70000, 70001));
      && Runs(map[], run) && InOrder(0, run) && Valid(run) && !SameVerdicts(run)
  {
    hide Runs, Verdicts, WithoutCollection, InOrder;
    CollectionAdmitsOneMore(1, 1, 0, 69000, Clock(70000, 70000, 70001));
  }

  // ---- The statements ----

  class RateBuckets {
    var rows: map<nat, Row>

    /** `None` is the error for an invalid policy; a key is taken to have its 32 bytes. */
    method ConsumeRate(key: nat, limit: int, seconds: int, at: Clock) returns (admitted: Option<bool>)
      modifies this
      ensures admitted.Some? <==> ValidPolicy(limit, seconds)
      ensures admitted.None? ==> rows == old(rows)
      ensures admitted.Some? ==> admitted.value == Verdict(Get(old(rows), key), limit, seconds, at)
      ensures admitted.Some? ==> rows == Apply(old(rows), Consume(key, limit, seconds, at))
    {
      if !ValidPolicy(limit, seconds) {
        return None;
      }
      if key !in rows {
        rows := rows[key := Row(0, at.insert + 1000 * seconds)];
      }
      var bucket := rows[key];
      if bucket.expires <= at.select {
        rows := rows[key := Row(0, at.reset + 1000 * seconds)];
      } else if bucket.used >= limit {
        return Some(false);
      }
      rows := rows[key := rows[key].(used := rows[key].used + 1)];
      admitted := Some(true);
    }

    /** Deletes the longest expired buckets, at most a hundred, passing over those that are locked. */
    method CollectExpiredRates(now: int, locked: set<nat>) returns (deleted: set<nat>)
      modifies this
      ensures Possible(old(rows), Collect(now, deleted)) && rows == Apply(old(rows), Collect(now, deleted))
      ensures |deleted| <= BATCH && deleted !! locked
      ensures forall key :: key in rows && key !in locked && rows[key].expires < now - GRACE ==>
        |deleted| == BATCH && forall gone :: gone in deleted ==> old(rows)[gone].expires <= rows[key].expires
    {
      deleted := {};
      var candidates := set key | key in rows && key !in locked && rows[key].expires < now - GRACE;
      while |deleted| < BATCH && candidates != {}
        invariant rows == old(rows) && |deleted| <= BATCH && deleted !! candidates
        invariant forall key :: key in deleted || key in candidates <==> key in rows && key !in locked && rows[key].expires < now - GRACE
        invariant forall gone, key :: gone in deleted && key in candidates ==> rows[gone].expires <= rows[key].expires
        decreases candidates
      {
        Oldest(rows, candidates);
        var first :| first in candidates && forall key :: key in candidates ==> rows[first].expires <= rows[key].expires;
        deleted, candidates := deleted + {first}, candidates - {first};
      }
      rows := rows - deleted;
    }
  }

  lemma {:induction false} Oldest(rows: map<nat, Row>, keys: set<nat>)
    requires keys != {} && keys <= rows.Keys
    ensures exists first :: first in keys && forall key :: key in keys ==> rows[first].expires <= rows[key].expires
    decreases keys
  {
    var some :| some in keys;
    if keys - {some} != {} {
      Oldest(rows, keys - {some});
      var first :| first in keys - {some} && forall key :: key in keys - {some} ==> rows[first].expires <= rows[key].expires;
      var older := if rows[some].expires <= rows[first].expires then some else first;
      assert forall key :: key in keys ==> key == some || key in keys - {some};
      assert older in keys && forall key :: key in keys ==> rows[older].expires <= rows[key].expires;
    } else {
      assert keys == {some};
    }
  }
}
