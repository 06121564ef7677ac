/** Calls for the same key share one run; the waiters share one future, and its cancellation. */
module SingleFlight {
  import opened Wrappers

  /** Values and exceptions are opaque; a cancellation is an outcome of its own. */
  datatype Outcome = Returned(value: nat) | Raised(error: nat) | Cancelled

  /** One run: its key, how it ended, what its future holds, and whether a waiter has cancelled that future. */
  datatype Flight = Flight(key: nat, ended: Option<Outcome>, future: Option<Outcome>, waiterCancelled: bool)

  /** A call that joined: what it got, and whether it was itself cancelled. */
  datatype Joiner = Joiner(flight: nat, outcome: Option<Outcome>, cancelled: bool)

  datatype State = State(inflight: map<nat, nat>, flights: seq<Flight>, joiners: seq<Joiner>)

  datatype Event = Do(key: nat) | RunEnds(flight: nat, outcome: Outcome) | Resume(joiner: nat) | CancelJoiner(joiner: nat)

  const EMPTY: State := State(map[], [], [])

  predicate Waiting(s: State, j: nat) {
    j < |s.joiners| && s.joiners[j].outcome.None? && s.joiners[j].flight < |s.flights|
  }

  predicate Enabled(s: State, e: Event) {
    match e
    case Do(_) => true
    case RunEnds(i, _) => i < |s.flights| && s.flights[i].ended.None?
    case Resume(j) => Waiting(s, j) && s.flights[s.joiners[j].flight].future.Some?
    case CancelJoiner(j) => Waiting(s, j)
  }

  /** `set_result` or `set_exception` unless the future is done. */
  function Settle(f: Flight, outcome: Outcome): Flight {
    f.(ended := Some(outcome), future := if f.future.Some? then f.future else Some(outcome))
  }

  function Next(s: State, e: Event): State
    requires Enabled(s, e)
  {
    match e
    case Do(key) =>
      if key in s.inflight then s.(joiners := s.joiners + [Joiner(s.inflight[key], None, false)])
      else s.(inflight := s.inflight[key := |s.flights|], flights := s.flights + [Flight(key, None, None, false)])
    case RunEnds(i, outcome) =>
      s.(flights := s.flights[i := Settle(s.flights[i], outcome)], inflight := s.inflight - {s.flights[i].key})
    case Resume(j) =>
      s.(joiners := s.joiners[j := s.joiners[j].(outcome := s.flights[s.joiners[j].flight].future)])
    case CancelJoiner(j) =>
      var i := s.joiners[j].flight;
      var t := s.(joiners := s.joiners[j := s.joiners[j].(outcome := Some(Cancelled), cancelled := true)]);
      if s.flights[i].future.Some? then t
      else t.(flights := s.flights[i := s.flights[i].(future := Some(Cancelled), waiterCancelled := true)])
  }

  /** A flight is in the map exactly while it runs. */
  ghost predicate MapInv(s: State) {
    && (forall key :: key in s.inflight ==> s.inflight[key] < |s.flights| && s.flights[s.inflight[key]].key == key)
    && (forall i :: 0 <= i < |s.flights| ==>
          (s.flights[i].ended.None? <==> s.flights[i].key in s.inflight && s.inflight[s.flights[i].key] == i))
  }

  ghost predicate FlightInv(f: Flight) {
    f.future == if f.waiterCancelled then Some(Cancelled) else f.ended
  }

  ghost predicate JoinerInv(s: State, joiner: Joiner) {
    && joiner.flight < |s.flights|
    && (joiner.outcome.Some? && !joiner.cancelled ==> joiner.outcome == s.flights[joiner.flight].future)
  }

  ghost predicate Inv(s: State) {
    && MapInv(s)
    && (forall i :: 0 <= i < |s.flights| ==> FlightInv(s.flights[i]))
    && (forall j :: 0 <= j < |s.joiners| ==> JoinerInv(s, s.joiners[j]))
  }

  lemma StepInv(s: State, e: Event)
    requires Inv(s) && Enabled(s, e)
    ensures Inv(Next(s, e))
  {
    var t := Next(s, e);
    forall j | 0 <= j < |t.joiners|
      ensures JoinerInv(t, t.joiners[j])
    {
      if j < |s.joiners| {
        assert JoinerInv(s, s.joiners[j]);
      }
    }
  }

  predicate Possible(s: State, es: seq<Event>)
    decreases |es|
  {
    es == [] || (Enabled(s, es[0]) && Possible(Next(s, es[0]), es[1..]))
  }

  function After(s: State, es: seq<Event>): State
    requires Possible(s, es)
    decreases |es|
  {
    if es == [] then s else After(Next(s, es[0]), es[1..])
  }

  lemma {:induction false} RunInv(s: State, es: seq<Event>)
    requires Inv(s) && Possible(s, es)
    ensures Inv(After(s, es))
    decreases |es|
  {
    if es == [] {
    } else {
      StepInv(s, es[0]);
      RunInv(Next(s, es[0]), es[1..]);
    }
  }

  /** At most one run per key at any time. */
  lemma OneRunPerKey(es: seq<Event>, i: nat, j: nat)
    requires Possible(EMPTY, es)
    requires var s := After(EMPTY, es);
      i < |s.flights| && j < |s.flights| && s.flights[i].ended.None? && s.flights[j].ended.None? && s.flights[i].key == s.flights[j].key
    ensures i == j
  {
    RunInv(EMPTY, es);
  }

  /** What a joiner gets that is not itself cancelled: the outcome of the run that it joined, exactly if no waiter of
      that run was cancelled before it ended; otherwise a cancellation that was none of its own. */
  lemma JoinerGetsTheRun(es: seq<Event>, j: nat)
    requires Possible(EMPTY, es)
    requires var s := After(EMPTY, es); j < |s.joiners| && s.joiners[j].outcome.Some? && !s.joiners[j].cancelled
    ensures var s := After(EMPTY, es); s.joiners[j].flight < |s.flights|
    ensures var s := After(EMPTY, es); var f := s.flights[s.joiners[j].flight];
      s.joiners[j].outcome == if f.waiterCancelled then Some(Cancelled) else f.ended
  {
    RunInv(EMPTY, es);
    var s := After(EMPTY, es);
    assert JoinerInv(s, s.joiners[j]) && FlightInv(s.flights[s.joiners[j].flight]);
  }

  /** One waiter's cancellation reaches another, and even one that joins afterwards. */
  lemma CancellationSpreads(key: nat, value: nat)
    ensures var es := [Do(key), Do(key), CancelJoiner(0), Do(key), Resume(1), RunEnds(0, Returned(value))];
      && Possible(EMPTY, es)
      && After(EMPTY, es).joiners == [Joiner(0, Some(Cancelled), true), Joiner(0, Some(Cancelled), false)]
      && After(EMPTY, es).flights == [Flight(key, Some(Returned(value)), Some(Cancelled), true)]
  {
    var es := [Do(key), Do(key), CancelJoiner(0), Do(key), Resume(1), RunEnds(0, Returned(value))];
    var s2 := Next(Next(EMPTY, es[0]), es[1]);
    var s4 := Next(Next(s2, es[2]), es[3]);
    var s5 := Next(s4, es[4]);
    var s6 := Next(s5, es[5]);
    Opens(s5, es[5], []);
    Opens(s4, es[4], [es[5]]);
    Opens(Next(s2, es[2]), es[3], [es[4], es[5]]);
    Opens(s2, es[2], [es[3], es[4], es[5]]);
    Opens(Next(EMPTY, es[0]), es[1], [es[2], es[3], es[4], es[5]]);
    Opens(EMPTY, es[0], [es[1], es[2], es[3], es[4], es[5]]);
    assert es == [es[0]] + [es[1], es[2], es[3], es[4], es[5]];
  }

  lemma Opens(s: State, e: Event, es: seq<Event>)
    requires Enabled(s, e) && Possible(Next(s, e), es)
    ensures Possible(s, [e] + es) && After(s, [e] + es) == After(Next(s, e), es)
  {
    assert ([e] + es)[1..] == es;
  }

  /** The map and the futures, changed by the segments of `do`. */
  class Group {
    var inflight: map<nat, nat>
    var flights: seq<Flight>
    ghost var joiners: seq<Joiner>

    ghost function View(): State
      reads this
    {
      State(inflight, flights, joiners)
    }

    constructor ()
      ensures View() == EMPTY
    {
      inflight, flights, joiners := map[], [], [];
    }

    /** Up to the first await: wait for the future that is there, or start the run. */
    method Do(key: nat) returns (flight: nat, leads: bool)
      requires Inv(View())
      modifies this
      ensures View() == Next(old(View()), Event.Do(key)) && Inv(View())
      ensures leads == (key !in old(inflight)) && flight < |flights| && flights[flight].key == key
    {
      StepInv(View(), Event.Do(key));
      if key in inflight {
        flight, leads := inflight[key], false;
        joiners := joiners + [Joiner(flight, None, false)];
      } else {
        flight, leads := |flights|, true;
        flights := flights + [Flight(key, None, None, false)];
        inflight := inflight[key := flight];
      }
    }

    /** After the leader's await: settle the future unless it is done, and take the key out of the map. */
    method RunEnds(flight: nat, outcome: Outcome) returns (result: Outcome)
      requires Inv(View()) && Enabled(View(), Event.RunEnds(flight, outcome))
      modifies this
      ensures View() == Next(old(View()), Event.RunEnds(flight, outcome)) && Inv(View())
      ensures result == outcome && flights[flight].key !in inflight
    {
      StepInv(View(), Event.RunEnds(flight, outcome));
      var f := flights[flight];
      if f.future.None? {
        f := f.(future := Some(outcome));
      }
      flights := flights[flight := f.(ended := Some(outcome))];
      inflight := inflight - {f.key};
      result := outcome;
    }
  }
}
