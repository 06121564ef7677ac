/** The decoder server: one job at a time, and a shutdown that answers only when none is left. */
module DecoderServer {

  /** A `close` call: waiting for the connections, then for a snapshot of the jobs, then answered. */
  datatype Wait = Connections | Jobs(snapshot: set<nat>) | Answered

  /** Where a job stands: in its try block, or at one of the awaits of its nested finally blocks; `made` says whether
      there is an output directory to remove. */
  datatype Stage = Working | ClosingOutputs(made: bool) | Disposing(made: bool) | RemovingOutput

  /** `running` are the jobs whose promise is unsettled; `listed` those not yet deleted from the server's set. */
  datatype State = State(busy: bool, stopping: bool, sockets: set<nat>, listed: set<nat>, running: map<nat, Stage>, waits: seq<Wait>)

  /** A work ends by completing or by throwing; so may a disposal and a removal. */
  datatype Event =
    | Connection(id: nat)
    | WorkEnds(id: nat, ok: bool, made: bool) | OutputsClosed(id: nat) | Disposed(id: nat, ok: bool) | OutputRemoved(id: nat, ok: bool)
    | JobUnlisted(id: nat)
    | Close | Drained(w: nat) | Answer(w: nat)

  const IDLE: State := State(false, false, {}, {}, map[], [])

  predicate IsAt(s: State, id: nat, stage: Stage) {
    id in s.running && s.running[id] == stage
  }

  predicate Enabled(s: State, e: Event) {
    match e
    case Connection(id) => id !in s.listed
    case WorkEnds(id, _, _) => IsAt(s, id, Working)
    case OutputsClosed(id) => id in s.running && s.running[id].ClosingOutputs?
    case Disposed(id, _) => id in s.running && s.running[id].Disposing?
    case OutputRemoved(id, _) => IsAt(s, id, RemovingOutput)
    case JobUnlisted(id) => id in s.listed && id !in s.running
    case Close => true
    case Drained(w) => w < |s.waits| && s.waits[w].Connections?
    case Answer(w) => w < |s.waits| && s.waits[w].Jobs? && s.waits[w].snapshot !! s.running.Keys
  }

  /** The innermost finally block. */
  function Freed(s: State, id: nat): State {
    s.(busy := false, sockets := s.sockets - {id}, running := s.running - {id})
  }

  function Next(s: State, e: Event): State
    requires Enabled(s, e)
  {
    match e
    case Connection(id) =>
      if s.busy || s.stopping then s
      else s.(busy := true, sockets := s.sockets + {id}, listed := s.listed + {id}, running := s.running[id := Working])
    case WorkEnds(id, _, made) => s.(running := s.running[id := ClosingOutputs(made)])
    case OutputsClosed(id) => s.(running := s.running[id := Disposing(s.running[id].made)])
    case Disposed(id, _) => if s.running[id].made then s.(running := s.running[id := RemovingOutput]) else Freed(s, id)
    case OutputRemoved(id, _) => Freed(s, id)
    case JobUnlisted(id) => s.(listed := s.listed - {id})
    case Close => s.(stopping := true, waits := s.waits + [Connections])
    case Drained(w) => s.(waits := s.waits[w := Jobs(s.listed)])
    case Answer(w) => s.(waits := s.waits[w := Answered])
  }

  ghost predicate Inv(s: State) {
    && (forall a, b :: a in s.running && b in s.running ==> a == b)
    && (s.busy <==> s.running.Keys != {}) && s.sockets == s.running.Keys && s.running.Keys <= s.listed
    && (s.stopping <==> s.waits != [])
    && (forall w :: 0 <= w < |s.waits| ==>
          && (s.waits[w].Jobs? ==> s.running.Keys <= s.waits[w].snapshot)
          && (s.waits[w].Answered? ==> s.running.Keys == {}))
  }

  lemma FreedInv(s: State, id: nat)
    requires Inv(s) && id in s.running
    ensures Inv(Freed(s, id)) && Freed(s, id).running == map[]
  {
    assert Freed(s, id).running.Keys == {};
  }

  lemma StepInv(s: State, e: Event)
    requires Inv(s) && Enabled(s, e)
    ensures Inv(Next(s, e))
  {
    var t := Next(s, e);
    match e
    case WorkEnds(id, _, _) => assert t.running.Keys == s.running.Keys;
    case OutputsClosed(id) => assert t.running.Keys == s.running.Keys;
    case Disposed(id, _) =>
      if s.running[id].made {
        assert t.running.Keys == s.running.Keys;
      } else {
        FreedInv(s, id);
      }
    case OutputRemoved(id, _) => FreedInv(s, id);
    case Answer(w) =>
      assert s.running.Keys == {} by { assert s.running.Keys <= s.waits[w].snapshot; }
    case _ =>
  }

  predicate Possible(s: State, es: seq<Event>)
    decreases |es|
  {
    es == [] || (Enabled(s, es[0]) && Possible(Next(s, es[0]), es[1..]))
  }

  function After(s: State, es: seq<Event>): State
    requires Possible(s, es)
    decreases |es|
  {
    if es == [] then s else After(Next(s, es[0]), es[1..])
  }

  lemma {:induction false} RunInv(s: State, es: seq<Event>)
    requires Inv(s) && Possible(s, es)
    ensures Inv(After(s, es))
    decreases |es|
  {
    if es == [] {
    } else {
      StepInv(s, es[0]);
      RunInv(Next(s, es[0]), es[1..]);
    }
  }

  /** Once a `close` callback has been called no job runs, and none ever will. */
  lemma {:induction false} AnsweredMeansQuiet(s: State, es: seq<Event>, w: nat)
    requires Inv(s) && Possible(s, es) && w < |s.waits| && s.waits[w].Answered?
    ensures s.running.Keys == {} && After(s, es).running.Keys == {}
    decreases |es|
  {
    if es == [] {
    } else {
      StepInv(s, es[0]);
      assert Next(s, es[0]).waits[w].Answered?;
      AnsweredMeansQuiet(Next(s, es[0]), es[1..], w);
    }
  }

  /** After `close` the jobs that still run were running before it. */
  lemma {:induction false} NoJobAfterClose(s: State, es: seq<Event>)
    requires Inv(s) && Possible(s, es) && s.stopping
    ensures After(s, es).running.Keys <= s.running.Keys && After(s, es).stopping
    decreases |es|
  {
    if es == [] {
    } else {
      StepInv(s, es[0]);
      NoJobAfterClose(Next(s, es[0]), es[1..]);
    }
  }

  /** From start-up, whatever the order of connections, ends of work, cleanups, deletions and closes. */
  lemma OneJobAtATime(es: seq<Event>)
    requires Possible(IDLE, es)
    ensures |After(IDLE, es).running.Keys| <= 1 && (After(IDLE, es).busy <==> |After(IDLE, es).running.Keys| == 1)
  {
    RunInv(IDLE, es);
    AtMostOne(After(IDLE, es));
  }

  lemma AtMostOne(s: State)
    requires Inv(s)
    ensures |s.running.Keys| <= 1 && (s.busy <==> |s.running.Keys| == 1)
    ensures Answered in s.waits ==> s.running.Keys == {}
  {
    var running := s.running.Keys;
    if running != {} {
      var a :| a in running;
      assert running == {a};
    }
  }

  function Rank(stage: Stage): nat {
    match stage case Working => 3 case ClosingOutputs(_) => 2 case Disposing(_) => 1 case RemovingOutput => 0
  }

  /** The rest of a job, with any outcomes: what is still to be awaited, whatever throws. */
  function WayOut(stage: Stage, id: nat, made: bool, oks: nat -> bool): seq<Event>
    decreases Rank(stage)
  {
    match stage
    case Working => [WorkEnds(id, oks(0), made)] + WayOut(ClosingOutputs(made), id, made, oks)
    case ClosingOutputs(m) => [OutputsClosed(id)] + WayOut(Disposing(m), id, made, oks)
    case Disposing(m) => [Disposed(id, oks(1))] + (if m then WayOut(RemovingOutput, id, made, oks) else [])
    case RemovingOutput => [OutputRemoved(id, oks(2))]
  }

  lemma Opens(s: State, e: Event, es: seq<Event>)
    requires Enabled(s, e) && Possible(Next(s, e), es)
    ensures Possible(s, [e] + es) && After(s, [e] + es) == After(Next(s, e), es)
  {
    assert ([e] + es)[1..] == es;
  }

  /** However a job's work ends and whichever of its cleanups throw, the way out passes the innermost finally block and
      leaves the server free for the next job. */
  lemma {:induction false} EveryWayOutFrees(s: State, id: nat, made: bool, oks: nat -> bool)
    requires Inv(s) && id in s.running
    ensures var es := WayOut(s.running[id], id, made, oks);
      Possible(s, es) && !After(s, es).busy && id !in After(s, es).sockets && id !in After(s, es).running
    decreases Rank(s.running[id])
  {
    var e, rest := WayOut(s.running[id], id, made, oks)[0], WayOut(s.running[id], id, made, oks)[1..];
    StepInv(s, e);
    if id in Next(s, e).running {
      EveryWayOutFrees(Next(s, e), id, made, oks);
    } else {
      assert rest == [];
    }
    Opens(s, e, rest);
    assert [e] + rest == WayOut(s.running[id], id, made, oks);
  }

  class Server {
    var busy: bool
    var stopping: bool
    var sockets: set<nat>
    var jobs: set<nat>
    var waits: seq<Wait>
    var running: map<nat, Stage>

    ghost function View(): State
      reads this
    {
      State(busy, stopping, sockets, jobs, running, waits)
    }

    ghost predicate Valid()
      reads this
    {
      Inv(View())
    }

    constructor ()
      ensures Valid() && View() == IDLE
    {
      busy, stopping, sockets, jobs, waits := false, false, {}, {}, [];
      running := map[];
    }

    /** A second client, or one that comes during shutdown, is cut off at once. */
    method OnConnection(socket: nat) returns (destroyed: bool)
      requires Enabled(View(), Connection(socket))
      modifies this
      ensures View() == Next(old(View()), Connection(socket)) && destroyed == (old(busy) || old(stopping))
    {
      if busy || stopping {
        return true;
      }
      busy := true;
      sockets := sockets + {socket};
      jobs, running := jobs + {socket}, running[socket := Working];
      destroyed := false;
    }

    /** The finally blocks of the job up to their next await, or to their end. */
    method Unwind(e: Event)
      requires (e.WorkEnds? || e.OutputsClosed? || e.Disposed? || e.OutputRemoved?) && Enabled(View(), e)
      modifies this
      ensures View() == Next(old(View()), e)
    {
      var stage := running[e.id];
      match stage {
        case Working => running := running[e.id := ClosingOutputs(e.made)];
        case ClosingOutputs(made) => running := running[e.id := Disposing(made)];
        case Disposing(made) =>
          if made {
            running := running[e.id := RemovingOutput];
          } else {
            JobEnds(e.id);
          }
        case RemovingOutput => JobEnds(e.id);
      }
    }

    method JobEnds(socket: nat)
      modifies this
      ensures View() == Freed(old(View()), socket)
    {
      sockets := sockets - {socket};
      busy := false;
      running := running - {socket};
    }

    method Close() returns (destroyed: set<nat>)
      modifies this
      ensures View() == Next(old(View()), Event.Close) && destroyed == old(sockets)
    {
      stopping := true;
      destroyed := sockets;
      waits := waits + [Connections];
    }

    /** Any event of the server, and what a caller can rely on after it: at most one job, and none behind a close that
        has been answered. */
    method Handle(e: Event)
      requires Valid() && Enabled(View(), e)
      modifies this
      ensures Valid() && View() == Next(old(View()), e)
      ensures |running.Keys| <= 1 && (busy <==> |running.Keys| == 1)
      ensures Answered in waits ==> running.Keys == {}
    {
      StepInv(View(), e);
      hide Inv;
      match e {
        case Connection(id) => var destroyed := OnConnection(id);
        case JobUnlisted(id) => jobs := jobs - {id};
        case Close => var destroyed := Close();
        case Drained(w) => waits := waits[w := Jobs(jobs)];
        case Answer(w) => waits := waits[w := Answered];
        case _ => Unwind(e);
      }
      AtMostOne(View());
    }
  }

  /** From start-up the server goes through the states of the machine, in any order of events. */
  method Serve(es: seq<Event>) returns (server: Server)
    requires Possible(IDLE, es)
    ensures server.Valid() && server.View() == After(IDLE, es)
    ensures |server.running.Keys| <= 1 && (server.busy <==> |server.running.Keys| == 1)
    ensures Answered in server.waits ==> server.running.Keys == {}
  {
    server := new Server();
    assert es[0..] == es;
    for k := 0 to |es|
      invariant fresh(server) && server.Valid()
      invariant Possible(server.View(), es[k..]) && After(server.View(), es[k..]) == After(IDLE, es)
      invariant |server.running.Keys| <= 1 && (server.busy <==> |server.running.Keys| == 1)
      invariant Answered in server.waits ==> server.running.Keys == {}
    {
      assert es[k..][1..] == es[k + 1..];
      server.Handle(es[k]);
    }
  }
}
