/** The push worker: wakes coalesced into one loop, and pages told to sync under the binding they are on. */
module ServiceWorker {
  import opened Sequences
  import opened Wrappers

  // ---- Coalescing ----

  /** `begun` counts the notifies that have begun and `loops` the wakes inside the loop; `shown` records, for every
      wake whose notification has been shown, how many notifies had begun by then. */
  datatype State = State(running: bool, pending: bool, loops: nat, begun: nat, shown: seq<nat>)

  /** A notification has been shown, or the notify of the loop has ended. */
  datatype Event = Shown | Ended(ok: bool)

  const IDLE: State := State(false, false, 0, 0, [])

  predicate Enabled(s: State, e: Event) {
    e.Ended? ==> s.running
  }

  function Next(s: State, e: Event): State
    requires Enabled(s, e)
  {
    match e
    case Shown =>
      if s.running then s.(pending := true, shown := s.shown + [s.begun])
      else State(true, false, s.loops + 1, s.begun + 1, s.shown + [s.begun])
    case Ended(ok) =>
      if ok && s.pending then s.(pending := false, begun := s.begun + 1)
      else s.(running := false, pending := false, loops := if s.loops > 0 then s.loops - 1 else 0)
  }

  /** A shown wake that no notify has begun after. */
  ghost predicate Owed(s: State) {
    exists w :: 0 <= w < |s.shown| && s.shown[w] >= s.begun
  }

  ghost predicate LoopInv(s: State) {
    && s.loops == (if s.running then 1 else 0)
    && (s.pending ==> s.running)
    && (forall w :: 0 <= w < |s.shown| ==> s.shown[w] <= s.begun)
  }

  /** Nothing is owed but what the loop is about to do. */
  ghost predicate Inv(s: State) {
    LoopInv(s) && (Owed(s) <==> s.pending)
  }

  lemma LoopStep(s: State, e: Event)
    requires LoopInv(s) && Enabled(s, e)
    ensures LoopInv(Next(s, e))
  {
  }

  /** A step keeps the promise exactly if it is not the failure of a notify with a wake still pending. */
  lemma StepKeepsIff(s: State, e: Event)
    requires Inv(s) && Enabled(s, e)
    ensures Inv(Next(s, e)) <==> !(e == Ended(false) && s.pending)
  {
    var t := Next(s, e);
    match e
    case Shown =>
      if s.running {
        assert t.shown[|s.shown|] >= t.begun;
      }
    case Ended(ok) =>
      if Owed(s) {
        var w :| 0 <= w < |s.shown| && s.shown[w] >= s.begun;
        assert t.shown[w] == s.shown[w];
      }
  }

  predicate Possible(s: State, es: seq<Event>)
    decreases |es|
  {
    es == [] || (Enabled(s, es[0]) && Possible(Next(s, es[0]), es[1..]))
  }

  function After(s: State, es: seq<Event>): State
    requires Possible(s, es)
    decreases |es|
  {
    if es == [] then s else After(Next(s, es[0]), es[1..])
  }

  lemma {:induction false} LoopRun(s: State, es: seq<Event>)
    requires LoopInv(s) && Possible(s, es)
    ensures LoopInv(After(s, es))
    decreases |es|
  {
    if es == [] {
    } else {
      LoopStep(s, es[0]);
      LoopRun(Next(s, es[0]), es[1..]);
    }
  }

  lemma {:induction false} RunInv(s: State, es: seq<Event>)
    requires Inv(s) && Possible(s, es) && Ended(false) !in es
    ensures Inv(After(s, es))
    decreases |es|
  {
    if es == [] {
    } else {
      StepKeepsIff(s, es[0]);
      RunInv(Next(s, es[0]), es[1..]);
    }
  }

  /** At most one loop runs, failures or not. */
  lemma OneLoop(es: seq<Event>)
    requires Possible(IDLE, es)
    ensures After(IDLE, es).loops <= 1 && (After(IDLE, es).running <==> After(IDLE, es).loops == 1)
  {
    LoopRun(IDLE, es);
  }

  /** If no notify fails, then once the loop has stopped every shown wake has been followed by a notify that began
      after it; while it runs, only a pending wake is still owed one. */
  lemma NoWakeIsLost(es: seq<Event>, w: nat)
    requires Possible(IDLE, es) && Ended(false) !in es && w < |After(IDLE, es).shown|
    ensures After(IDLE, es).shown[w] < After(IDLE, es).begun || (After(IDLE, es).running && After(IDLE, es).pending)
  {
    RunInv(IDLE, es);
  }

  /** A failure with a wake pending does lose it. */
  lemma FailureLosesPendingWake()
    ensures var es := [Shown, Shown, Ended(false)];
      Possible(IDLE, es) && !After(IDLE, es).running && Owed(After(IDLE, es))
  {
    var es := [Shown, Shown, Ended(false)];
    var s1 := Next(IDLE, Shown);
    var s2 := Next(s1, Shown);
    var s3 := Next(s2, Ended(false));
    assert es[1..] == [Shown, Ended(false)] && es[1..][1..] == [Ended(false)] && es[1..][1..][1..] == [];
    assert Possible(s2, [Ended(false)]) && After(s2, [Ended(false)]) == s3;
    assert Possible(s1, es[1..]) && After(s1, es[1..]) == s3;
    assert s3.shown[1] == s3.begun;
  }

  // ---- Bindings ----

  datatype Binding = Binding(account: string, session: string, generation: int)

  /** A message whose fields have the wrong types has no binding. */
  datatype Message = Bind(binding: Option<Binding>) | Unbind(binding: Option<Binding>) | Other

  /** Only the binding that is named is removed, and only by its own page. */
  function Received(bindings: map<string, Binding>, sender: string, m: Message): map<string, Binding> {
    match m
    case Bind(Some(b)) => bindings[sender := b]
    case Unbind(Some(b)) => if sender in bindings && bindings[sender] == b then bindings - {sender} else bindings
    case _ => bindings
  }

  /** A cleanup that arrives late removes nothing of a newer sign-in. */
  lemma LateUnbindKeepsNewer(bindings: map<string, Binding>, sender: string, before: Binding, newer: Binding)
    requires before != newer
    ensures var after := Received(Received(bindings, sender, Bind(Some(newer))), sender, Unbind(Some(before)));
      sender in after && after[sender] == newer && after - {sender} == bindings - {sender}
  {
  }

  /** A message and the page that sent it. */
  datatype Sent = Sent(sender: string, message: Message)

  function AllReceived(bindings: map<string, Binding>, sent: seq<Sent>): map<string, Binding>
    decreases |sent|
  {
    if sent == [] then bindings
    else AllReceived(Received(bindings, sent[0].sender, sent[0].message), sent[1..])
  }

  function OfPage(sent: seq<Sent>, page: string): seq<Sent> {
    if sent == [] then []
    else (if sent[0].sender == page then [sent[0]] else []) + OfPage(sent[1..], page)
  }

  function Bound(bindings: map<string, Binding>, page: string): Option<Binding> {
    if page in bindings then Some(bindings[page]) else None
  }

  /** One page does not speak for another: whatever messages arrive, in any order, a page's binding is the one that its
      own messages make. */
  lemma {:induction false} OwnMessagesOnly(xs: map<string, Binding>, ys: map<string, Binding>, sent: seq<Sent>, page: string)
    requires Bound(xs, page) == Bound(ys, page)
    ensures Bound(AllReceived(xs, sent), page) == Bound(AllReceived(ys, OfPage(sent, page)), page)
    decreases |sent|
  {
    if sent == [] {
    } else {
      var x := Received(xs, sent[0].sender, sent[0].message);
      if sent[0].sender == page {
        OwnMessagesOnly(x, Received(ys, page, sent[0].message), sent[1..], page);
        assert OfPage(sent, page)[1..] == OfPage(sent[1..], page);
      } else {
        OwnMessagesOnly(x, ys, sent[1..], page);
        assert OfPage(sent, page) == OfPage(sent[1..], page);
      }
    }
  }

  datatype Post = Post(client: string, binding: Binding)

  function PostTo(client: string, bindings: map<string, Binding>): seq<Post> {
    if client in bindings then [Post(client, bindings[client])] else []
  }

  /** What is posted: to each live page that is bound, its binding. */
  function Posts(clients: seq<string>, bindings: map<string, Binding>): seq<Post> {
    if clients == [] then [] else PostTo(clients[0], bindings) + Posts(clients[1..], bindings)
  }

  lemma {:induction false} PostsOfAppend(clients: seq<string>, last: string, bindings: map<string, Binding>)
    ensures Posts(clients + [last], bindings) == Posts(clients, bindings) + PostTo(last, bindings)
  {
    hide PostTo;
    if clients == [] {
      assert Posts([last], bindings) == PostTo(last, bindings) + Posts([], bindings);
    } else {
      PostsOfAppend(clients[1..], last, bindings);
      assert (clients + [last])[1..] == clients[1..] + [last];
      Regroup(PostTo(clients[0], bindings), Posts(clients[1..], bindings), PostTo(last, bindings));
    }
  }

  /** Nobody is told to sync who is not bound now, under anything but the current binding, and nobody is left out. */
  lemma {:induction false} PostedIffBound(clients: seq<string>, bindings: map<string, Binding>, p: Post)
    ensures p in Posts(clients, bindings) <==> p.client in clients && p.client in bindings && p.binding == bindings[p.client]
  {
    if clients == [] {
    } else {
      PostedIffBound(clients[1..], bindings, p);
    }
  }

  class Worker {
    var bindings: map<string, Binding>
    var running: bool
    var pending: bool
    ghost var loops: nat
    ghost var begun: nat
    ghost var shown: seq<nat>

    ghost function View(): State
      reads this
    {
      State(running, pending, loops, begun, shown)
    }

    constructor ()
      ensures View() == IDLE && bindings == map[]
    {
      bindings, running, pending := map[], false, false;
      loops, begun, shown := 0, 0, [];
    }

    method OnMessage(sender: string, m: Message)
      modifies this`bindings
      ensures bindings == Received(old(bindings), sender, m)
    {
      match m {
        case Unbind(b) =>
          if sender !in bindings {
            return;
          }
          if b.None? || bindings[sender] != b.value {
            return;
          }
          bindings := bindings - {sender};
        case Bind(b) =>
          if b.None? {
            return;
          }
          bindings := bindings[sender := b.value];
        case Other =>
      }
    }

    /** After the notification: leave it to the loop that runs, or become the loop.  True means that a notify begins. */
    method OnShown() returns (notify: bool)
      modifies this`running, this`pending, this`loops, this`begun, this`shown
      ensures View() == Next(old(View()), Shown) && notify == !old(running)
    {
      shown := shown + [begun];
      if running {
        pending := true;
        return false;
      }
      running := true;
      pending := false;
      loops, begun := loops + 1, begun + 1;
      notify := true;
    }

    /** After a notify: once more, or the finally block. */
    method OnEnded(ok: bool) returns (notify: bool)
      requires running && LoopInv(View())
      modifies this`running, this`pending, this`loops, this`begun
      ensures View() == Next(old(View()), Ended(ok)) && notify == (ok && old(pending))
    {
      if ok && pending {
        pending := false;
        begun := begun + 1;
        return true;
      }
      running := false;
      pending := false;
      loops := loops - 1;
      notify := false;
    }

    /** A run of messages: every page ends up bound as its own messages alone would bind it. */
    method OnMessages(sent: seq<Sent>)
      modifies this`bindings
      ensures forall page :: Bound(bindings, page) == Bound(AllReceived(old(bindings), OfPage(sent, page)), page)
    {
      assert sent[0..] == sent;
      for k := 0 to |sent|
        invariant AllReceived(bindings, sent[k..]) == AllReceived(old(bindings), sent)
      {
        assert sent[k..][1..] == sent[k + 1..];
        OnMessage(sent[k].sender, sent[k].message);
      }
      forall page
        ensures Bound(bindings, page) == Bound(AllReceived(old(bindings), OfPage(sent, page)), page)
      {
        OwnMessagesOnly(old(bindings), old(bindings), sent, page);
      }
    }

    /** A notification shown or a notify ended.  With no failure so far nothing is owed but what the loop is about to do. */
    method Handle(e: Event) returns (notify: bool)
      requires LoopInv(View()) && Enabled(View(), e)
      modifies this`running, this`pending, this`loops, this`begun, this`shown
      ensures LoopInv(View()) && View() == Next(old(View()), e)
      ensures notify == (View().begun > old(View()).begun)
      ensures Inv(old(View())) ==> (Inv(View()) <==> !(e == Ended(false) && old(pending)))
    {
      LoopStep(View(), e);
      if Inv(View()) {
        StepKeepsIff(View(), e);
      }
      match e {
        case Shown => notify := OnShown();
        case Ended(ok) => notify := OnEnded(ok);
      }
    }

    /** The part of a notify after its await, with the pages there are by then. */
    method Notify(clients: seq<string>) returns (posts: seq<Post>)
      modifies this`bindings
      ensures posts == Posts(clients, old(bindings))
      ensures forall id :: id in bindings <==> id in old(bindings) && id in clients
      ensures forall id :: id in bindings ==> bindings[id] == old(bindings)[id]
    {
      var live: set<string> := {};
      posts := [];
      for i := 0 to |clients|
        invariant live == set id | id in clients[..i]
        invariant posts == Posts(clients[..i], bindings) && bindings == old(bindings)
      {
        PostsOfAppend(clients[..i], clients[i], bindings);
        assert clients[..i] + [clients[i]] == clients[..i + 1];
        live := live + {clients[i]};
        if clients[i] in bindings {
          posts := posts + [Post(clients[i], bindings[clients[i]])];
        }
      }
      assert clients[..|clients|] == clients;
      var gone := bindings.Keys - live;
      while gone != {}
        invariant gone <= bindings.Keys && gone !! live && bindings.Keys - gone == old(bindings).Keys * live
        invariant forall id :: id in bindings ==> id in old(bindings) && bindings[id] == old(bindings)[id]
        decreases gone
      {
        var id :| id in gone;
        bindings := bindings - {id};
        gone := gone - {id};
      }
      assert bindings.Keys == old(bindings).Keys * live;
      assert forall id :: id in bindings <==> id in bindings.Keys;
    }
  }

  /** From start-up, whatever the order of wakes and notifies: at most one loop; and unless a notify fails, every shown
      wake has been followed by a notify that began after it, or the running loop still owes it one. */
  method Serve(es: seq<Event>) returns (worker: Worker)
    requires Possible(IDLE, es)
    ensures worker.View() == After(IDLE, es)
    ensures worker.loops <= 1 && (worker.running <==> worker.loops == 1)
    ensures Ended(false) !in es ==> forall w :: 0 <= w < |worker.shown| ==>
      worker.shown[w] < worker.begun || (worker.running && worker.pending)
  {
    worker := new Worker();
    assert es[0..] == es;
    for k := 0 to |es|
      invariant fresh(worker) && LoopInv(worker.View())
      invariant Possible(worker.View(), es[k..]) && After(worker.View(), es[k..]) == After(IDLE, es)
      invariant Ended(false) !in es ==> Inv(worker.View())
    {
      assert es[k..][1..] == es[k + 1..];
      var notify := worker.Handle(es[k]);
    }
  }
}
