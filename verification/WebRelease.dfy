/** Web activation with compensation: a fault may strike before or after the effect of every step. */
module WebRelease {
  import opened Wrappers

  /** How a step ends: done, with an exception, or with the death of the process. */
  datatype Reply = Fine | Fault | Killed

  /** `Broken` is whatever a failed compose command leaves behind. */
  datatype Container = Absent | Running(config: nat) | Broken

  /** What befalls a step: its reply, whether a step that fails has had its effect, and what a compose command that
      fails leaves running. */
  datatype Fate = Fate(reply: Reply, effect: bool, left: Container)

  /** What befalls the steps of a block, numbered from zero. */
  type Fates = nat -> Fate

  ghost predicate AllFine(fates: Fates) {
    forall n :: fates(n).reply.Fine?
  }

  datatype Outcome = Completed | Restored | Incomplete | Refused | Dead

  /** A request: the compose file and the site file it wants. */
  datatype Request = Request(id: nat, config: nat, site: nat)

  /** The two files, what runs, and the site that the proxy has loaded. */
  datatype Release = Release(compose: Option<nat>, site: Option<nat>, container: Container, loaded: Option<nat>)

  function Wanted(request: Request): Release {
    Release(Some(request.config), Some(request.site), Running(request.config), Some(request.site))
  }

  function Runs(compose: Option<nat>): Container {
    match compose case Some(c) => Running(c) case None => Absent
  }

  /** Everything as the previous files say. */
  function Previous(compose: Option<nat>, site: Option<nat>): Release {
    Release(compose, site, Runs(compose), site)
  }

  class Host {
    var compose: Option<nat>
    var site: Option<nat>
    var container: Container
    var loaded: Option<nat>
    var receipts: set<nat>
    var durable: set<nat>
    ghost var activated: seq<nat>

    ghost function View(): Release
      reads this
    {
      Release(compose, site, container, loaded)
    }

    /** Every activation has a receipt that no crash can take away, and no request has two. */
    ghost predicate Valid()
      reads this
    {
      && durable <= receipts
      && (forall i :: 0 <= i < |activated| ==> activated[i] in durable)
      && (forall i, j :: 0 <= i < j < |activated| ==> activated[i] != activated[j])
    }

    constructor (compose: Option<nat>, site: Option<nat>, container: Container, loaded: Option<nat>)
      ensures Valid() && activated == [] && receipts == {} && View() == Release(compose, site, container, loaded)
    {
      this.compose, this.site, this.container, this.loaded := compose, site, container, loaded;
      receipts, durable, activated := {}, {}, [];
    }

    /** Passes only for a container that runs that configuration. */
    method Healthy(config: nat, f: Fate) returns (r: Reply)
      ensures r == if f.reply.Fine? && container != Running(config) then Fault else f.reply
    {
      r := if f.reply.Fine? && container != Running(config) then Fault else f.reply;
    }

    /** `atomic(CURRENT, ...)`, or its removal for `None`. */
    method SetCompose(value: Option<nat>, f: Fate) returns (r: Reply)
      modifies this`compose
      ensures r == f.reply && compose == if f.reply.Fine? || f.effect then value else old(compose)
    {
      r := f.reply;
      if r.Fine? || f.effect {
        compose := value;
      }
    }

    method SetSite(value: Option<nat>, f: Fate) returns (r: Reply)
      modifies this`site
      ensures r == f.reply && site == if f.reply.Fine? || f.effect then value else old(site)
    {
      r := f.reply;
      if r.Fine? || f.effect {
        site := value;
      }
    }

    /** A compose command, which needs the compose file: `up` if `wanted`, else `rm`. */
    method Compose(wanted: bool, f: Fate) returns (r: Reply)
      modifies this`container
      ensures r == if f.reply.Fine? && compose.None? then Fault else f.reply
      ensures r.Fine? ==> compose.Some? && container == if wanted then Runs(compose) else Absent
      ensures !r.Fine? ==> container == f.left
    {
      r := if f.reply.Fine? && compose.None? then Fault else f.reply;
      container := if r.Fine? then (if wanted then Runs(compose) else Absent) else f.left;
    }

    /** The proxy validates and loads what the site file says now. */
    method Reload(f: Fate) returns (r: Reply)
      modifies this`loaded
      ensures r == f.reply && loaded == if f.reply.Fine? || f.effect then site else old(loaded)
    {
      r := f.reply;
      if r.Fine? || f.effect {
        loaded := site;
      }
    }

    /** The receipt is created only if there is none, and then made durable. */
    method Claim(id: nat, opening: Fate, syncing: Fate) returns (r: Reply)
      requires Valid()
      modifies this`receipts, this`durable
      ensures Valid() && old(durable) <= durable
      ensures r.Fine? ==> id !in old(receipts) && id in durable
      ensures id !in old(receipts) && opening.reply.Fine? && syncing.reply.Fine? ==> r.Fine?
    {
      if id in receipts {
        return Fault;
      }
      if opening.reply.Fine? || opening.effect {
        receipts := receipts + {id};
      }
      if !opening.reply.Fine? {
        return opening.reply;
      }
      if syncing.reply.Fine? {
        durable := durable + {id};
      }
      r := syncing.reply;
    }

    /** The machine loses power while no release runs: undurable receipts may be gone.  The files stay; what runs and what
        the proxy has loaded after the restart is anything. */
    method PowerLoss()
      requires Valid()
      modifies this`receipts, this`container, this`loaded
      ensures Valid() && durable <= receipts <= old(receipts)
    {
      var kept: set<nat> := *;
      receipts := if durable <= kept <= receipts then kept else receipts;
      container, loaded := *, *;
    }

    /** The steps of the try block, the last of which is the evidence in the receipt. */
    method Activate(request: Request, fates: Fates) returns (r: Reply)
      modifies this`compose, this`site, this`container, this`loaded
      ensures r.Fine? ==> View() == Wanted(request)
      ensures AllFine(fates) ==> r.Fine?
      ensures fates(0).reply.Fault? && !fates(0).effect ==> r.Fault? && View() == old(View())
    {
      r := SetCompose(Some(request.config), fates(0));
      if !r.Fine? { return; }
      r := Compose(true, fates(1));
      if !r.Fine? { return; }
      r := Healthy(request.config, fates(2));
      if !r.Fine? { return; }
      r := fates(3).reply;
      if !r.Fine? { return; }
      r := SetSite(Some(request.site), fates(4));
      if !r.Fine? { return; }
      r := Reload(fates(5));
      if !r.Fine? { return; }
      r := fates(6).reply;
      if !r.Fine? || site != Some(request.site) {
        r := if r.Fine? then Fault else r;
        return;
      }
      r := fates(7).reply;
      if !r.Fine? { return; }
      r := fates(8).reply;
    }

    /** The compensation.  When nothing befalls it, it succeeds exactly if there is a compose file for it to work
        with: a previous one, or the one that the failed activation has written. */
    method RollBack(previous: Option<nat>, previousSite: Option<nat>, fates: Fates) returns (r: Reply)
      modifies this`compose, this`site, this`container, this`loaded
      ensures r.Fine? ==> View() == Previous(previous, previousSite)
      ensures AllFine(fates) ==> (r.Fine? <==> previous.Some? || old(compose).Some?) && !r.Killed?
      ensures previous.None? && old(compose).None? && fates(0).reply.Fine? ==>
        !r.Fine? && View() == old(View()).(site := previousSite, container := fates(1).left)
    {
      r := SetSite(previousSite, fates(0));
      if !r.Fine? { return; }
      if previous.None? {
        r := Compose(false, fates(1));
        if !r.Fine? { return; }
        r := SetCompose(None, fates(2));
        if !r.Fine? { return; }
      } else {
        r := SetCompose(previous, fates(1));
        if !r.Fine? { return; }
        r := Compose(true, fates(2));
        if !r.Fine? { return; }
        r := Healthy(previous.value, fates(3));
        if !r.Fine? { return; }
      }
      r := fates(4).reply;
      if !r.Fine? { return; }
      r := Reload(fates(5));
      if r.Fine? && previous.Some? {
        r := fates(6).reply;
      }
    }

    /** One `apply`.  Returning means the new release is up; "restored" means everything is as the previous files
        say; a refusal has changed nothing; otherwise the operator is told that the rollback is incomplete.  Whatever
        happens, kills included, the host changes only for a request with a durable receipt that is its own. */
    method Apply(request: Request, checks: Fates, activation: Fates, compensation: Fates) returns (r: Outcome)
      requires Valid()
      modifies this
      ensures Valid() && (activated == old(activated) || activated == old(activated) + [request.id])
      ensures View() != old(View()) ==> activated == old(activated) + [request.id] && request.id in durable
      ensures old(durable) <= durable
      ensures r.Completed? ==> View() == Wanted(request)
      ensures r.Restored? ==> View() == Previous(old(compose), old(site))
      ensures r.Refused? ==> View() == old(View())
      ensures r.Completed? || r.Restored? || r.Incomplete? ==> activated == old(activated) + [request.id]
      ensures request.id in old(receipts) ==> (r.Refused? || r.Dead?) && View() == old(View()) && activated == old(activated)
      ensures FirstWriteFails(old(View()), old(receipts), request, checks, activation, compensation) ==>
        if old(compose).Some? then r.Restored? else r.Incomplete? && View() == old(View())
    {
      var previous, previousSite := compose, site;
      if previous.None? != previousSite.None? {
        return Refused;
      }
      var reply: Reply := Fine;
      if previous.Some? {
        reply := Healthy(previous.value, checks(0));
      }
      if reply.Fine? {
        reply := checks(1).reply;
      }
      if reply.Fine? {
        reply := Claim(request.id, checks(2), checks(3));
      }
      if !reply.Fine? {
        return if reply.Killed? then Dead else Refused;
      }
      activated := activated + [request.id];
      reply := Activate(request, activation);
      if !reply.Fault? {
        return if reply.Killed? then Dead else Completed;
      }
      reply := RollBack(previous, previousSite, compensation);
      r := match reply case Fine => Restored case Fault => Incomplete case Killed => Dead;
    }
  }

  /** On a host in order and with a new request, the very first write fails without effect, and nothing else does but
      what has to. */
  ghost predicate FirstWriteFails(before: Release, receipts: set<nat>, request: Request, checks: Fates, activation: Fates, compensation: Fates) {
    && before == Previous(before.compose, before.site) && (before.compose.None? <==> before.site.None?)
    && request.id !in receipts && AllFine(checks)
    && activation(0).reply.Fault? && !activation(0).effect
    && AllFine(compensation) && compensation(1).left == before.container
  }

  /** A first release whose first write fails is reported as an incomplete rollback although nothing has changed. */
  method FirstReleaseFails(request: Request) returns (r: Outcome, host: Host)
    ensures r.Incomplete? && host.View() == Release(None, None, Absent, None)
  {
    host := new Host(None, None, Absent, None);
    var fine: Fates := _ => Fate(Fine, true, Absent);
    var failing: Fates := _ => Fate(Fault, false, Absent);
    assert FirstWriteFails(host.View(), host.receipts, request, fine, failing, fine);
    r := host.Apply(request, fine, failing, fine);
  }

  /** An application or a power loss, with the release before and after it. */
  datatype Entry = Applied(request: Request, before: Release, after: Release) | PowerLost(before: Release, after: Release)

  predicate Changed(e: Entry) {
    e.before != e.after
  }

  function Last(start: Release, trace: seq<Entry>): Release {
    if trace == [] then start else trace[|trace| - 1].after
  }

  /** Every entry begins where the one before it ended, and a power loss leaves the files alone. */
  ghost predicate Chained(start: Release, trace: seq<Entry>) {
    trace == [] ||
    (var front, last := trace[..|trace| - 1], trace[|trace| - 1];
     && last.before == Last(start, front) && Chained(start, front)
     && (last.PowerLost? ==> last.after.compose == last.before.compose && last.after.site == last.before.site))
  }

  function Requests(trace: seq<Entry>): seq<Request> {
    if trace == [] then []
    else
      var front, last := trace[..|trace| - 1], trace[|trace| - 1];
      Requests(front) + if last.Applied? then [last.request] else []
  }

  /** Of the times that one request id was applied at most one changed anything. */
  ghost predicate ChangesOnce(trace: seq<Entry>) {
    forall i, j :: 0 <= i < j < |trace| && trace[i].Applied? && trace[j].Applied? && trace[i].request.id == trace[j].request.id ==>
      !Changed(trace[i]) || !Changed(trace[j])
  }

  lemma OneMoreEntry(start: Release, trace: seq<Entry>, e: Entry)
    ensures Last(start, trace + [e]) == e.after
    ensures Requests(trace + [e]) == Requests(trace) + if e.Applied? then [e.request] else []
    ensures Chained(start, trace + [e]) <==>
      && Chained(start, trace) && e.before == Last(start, trace)
      && (e.PowerLost? ==> e.after.compose == e.before.compose && e.after.site == e.before.site)
  {
    assert (trace + [e])[..|trace|] == trace;
  }

  /** The trace accounts for every change of the host, all of them under durable receipts. */
  ghost predicate Recorded(host: Host, start: Release, trace: seq<Entry>)
    reads host
  {
    && host.Valid() && Chained(start, trace) && host.View() == Last(start, trace) && ChangesOnce(trace)
    && forall k :: 0 <= k < |trace| && trace[k].Applied? && Changed(trace[k]) ==> trace[k].request.id in host.durable
  }

  lemma StillOnce(trace: seq<Entry>, e: Entry)
    requires ChangesOnce(trace)
    requires e.Applied? && Changed(e) ==>
      forall k :: 0 <= k < |trace| && trace[k].Applied? && trace[k].request.id == e.request.id ==> !Changed(trace[k])
    ensures ChangesOnce(trace + [e])
  {
    hide Changed;
  }

  /** One request more. */
  method ApplyNext(host: Host, request: Request, checks: Fates, activation: Fates, compensation: Fates,
                   ghost start: Release, ghost trace: seq<Entry>)
    returns (ghost all: seq<Entry>)
    requires Recorded(host, start, trace)
    modifies host
    ensures Recorded(host, start, all) && Requests(all) == Requests(trace) + [request]
  {
    hide FirstWriteFails, Chained, Requests, ChangesOnce, Last;
    ghost var before := host.View();
    var r := host.Apply(request, checks, activation, compensation);
    ghost var e := Applied(request, before, host.View());
    OneMoreEntry(start, trace, e);
    StillOnce(trace, e);
    all := trace + [e];
  }

  /** Power goes and comes back. */
  method LosePower(host: Host, ghost start: Release, ghost trace: seq<Entry>) returns (ghost all: seq<Entry>)
    requires Recorded(host, start, trace)
    modifies host
    ensures Recorded(host, start, all) && Requests(all) == Requests(trace)
  {
    hide Chained, Requests, ChangesOnce, Last;
    ghost var before := host.View();
    host.PowerLoss();
    ghost var e := PowerLost(before, host.View());
    OneMoreEntry(start, trace, e);
    StillOnce(trace, e);
    all := trace + [e];
  }

  /** Any requests, again and again, with kills and power losses in between.  The trace accounts for every change of
      the host, and of all the times that one request id is applied at most one changes anything. */
  method ApplyAll(host: Host, requests: seq<Request>, checks: nat -> Fates, activations: nat -> Fates, compensations: nat -> Fates)
    returns (ghost trace: seq<Entry>)
    requires host.Valid()
    modifies host
    ensures host.Valid() && Requests(trace) == requests
    ensures Chained(old(host.View()), trace) && host.View() == Last(old(host.View()), trace)
    ensures ChangesOnce(trace)
  {
    ghost var start := host.View();
    trace := [];
    for n := 0 to |requests|
      invariant Recorded(host, start, trace) && Requests(trace) == requests[..n]
    {
      var powerLoss: bool := *;
      if powerLoss {
        trace := LosePower(host, start, trace);
      }
      trace := ApplyNext(host, requests[n], checks(n), activations(n), compensations(n), start, trace);
      assert requests[..n] + [requests[n]] == requests[..n + 1];
    }
    assert requests[..|requests|] == requests;
  }
}
