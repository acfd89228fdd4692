/** The server can always finish. From every reachable state some continuation
    dispatches all that was submitted, provided the ring has two slots; a ring of
    one slot never takes a command. Whether a scheduler follows such a
    continuation is another matter. */
module Drains {
  import opened Orders
  import opened ExchangeSpec
  import opened SpscSpec
  import opened SpscHistory
  import opened Pipeline
  import opened Threads

  function Undone(s: Server): int {
    |s.submitted| - Dispatched(s)
  }

  /** How far the network thread is from being rid of its command, if loads are up to date. */
  function ProducerLeft(s: Server): nat
    requires s.queue.buffer != []
  {
    if s.pending.Empty? then 0
    else
      match s.queue.producer
      case PIdle => 5
      case PLoadHead(_, _) => 4
      case PTest(_, _, _) => if FindsFull(s.queue) then 6 else 3
      case PWrite(_, _) => 2
      case PStore(_, _) => 1
  }

  /** How far the matching thread is from having a command in hand, or from finding none. */
  function ConsumerLeft(s: Server): nat {
    var none := |s.queue.popped| == |s.queue.pushed|;
    if s.taken.Holds? then 1
    else
      match s.queue.consumer
      case CIdle => if none then 0 else 8
      case CLoadTail(_) => if none then 3 else 7
      case CTest(_, _) => if !FindsEmpty(s.queue) then 6 else if none then 2 else 9
      case CRead(_) => 5
      case CStore(_, _) => 4
  }

  predicate Closer(s': Server, s: Server)
    requires s.queue.buffer != [] && s'.queue.buffer != []
  {
    && s'.submitted == s.submitted
    && (Undone(s') < Undone(s)
        || (Undone(s') == Undone(s) && ProducerLeft(s') < ProducerLeft(s))
        || (Undone(s') == Undone(s) && ProducerLeft(s') == ProducerLeft(s) && ConsumerLeft(s') < ConsumerLeft(s)))
  }

  function NextPop(q: State<Command>): Step<Command> {
    match q.consumer
    case CIdle => PopCall
    case CLoadTail(_) => PopLoadTail(|q.pushed|)
    case CTest(_, _) => PopTest
    case CRead(_) => PopRead(|q.popped|)
    case CStore(_, _) => PopStore
  }

  function NextPush(q: State<Command>, cmd: Command): Step<Command> {
    match q.producer
    case PIdle => PushCall(cmd)
    case PLoadHead(_, _) => PushLoadHead(|q.popped|)
    case PTest(_, _, _) => PushTest
    case PWrite(_, _) => PushWrite
    case PStore(_, _) => PushStore
  }

  lemma PopEnabled(q: State<Command>)
    requires Inv(q)
    ensures Enabled(q, NextPop(q)) && !OfProducer(NextPop(q))
  {
    if q.consumer.CRead? {
      ObservesItsItem(q, |q.popped|);
    }
  }

  /** The matching thread, unless it is idle with nothing to do, can come closer. */
  lemma ConsumerWorks(s: Server) returns (a: Action)
    requires ServerOk(s)
    requires s.taken.Holds? || !s.queue.consumer.CIdle? || |s.queue.popped| < |s.queue.pushed|
    ensures Allowed(s, a) && !a.Submit?
    ensures ServerOk(Act(s, a)) && Closer(Act(s, a), s)
  {
    hide Inv, IdsFromCounter, Dispatch, DispatchTrades, ExRun, ExTrades;
    LatestAllowed(s.queue);
    if s.taken.Holds? {
      a := Dispatching;
      ActKeeps(s, a);
    } else {
      var step := NextPop(s.queue);
      PopEnabled(s.queue);
      a := Matching(step);
      ActKeeps(s, a);
      ConsumerFrame(s.queue, step);
      LoadsFail(s.queue, step);
      LatestAllowed(Next(s.queue, step));
    }
  }

  /** While the matching thread has nothing to do, the network thread can come closer. */
  lemma ProducerWorks(s: Server) returns (a: Action)
    requires ServerOk(s) && |s.queue.buffer| >= 2
    requires s.taken.Empty? && s.queue.consumer.CIdle? && |s.queue.popped| == |s.queue.pushed| && s.pending.Holds?
    ensures Allowed(s, a) && !a.Submit?
    ensures ServerOk(Act(s, a)) && Closer(Act(s, a), s)
  {
    hide Inv, IdsFromCounter, Dispatch, DispatchTrades, ExRun, ExTrades;
    LatestAllowed(s.queue);
    var step := NextPush(s.queue, s.pending.cmd);
    a := Network(step);
    ActKeeps(s, a);
    ProducerFrame(s.queue, step);
    LoadsFail(s.queue, step);
  }

  lemma ServeNext(buffer: seq<Command>, actions: seq<Action>, a: Action)
    requires buffer != [] && Serve(buffer, actions).At? && Allowed(Serve(buffer, actions).server, a)
    ensures Serve(buffer, actions + [a]) == At(Act(Serve(buffer, actions).server, a))
    ensures Submits(actions + [a]) == Submits(actions) + (if a.Submit? then [(a.request, a.timestamp)] else [])
  {
    hide ServerOk, Act, Allowed;
    assert (actions + [a])[..|actions|] == actions;
  }

  lemma AllDone(s: Server)
    requires ServerOk(s) && s.taken.Empty? && |s.queue.popped| == |s.queue.pushed| && s.pending.Empty?
    ensures Undone(s) == 0
  {
  }

  /** Main result: from every reachable state, some continuation of the two threads,
      with no new requests, dispatches everything submitted. */
  lemma CanFinish(buffer: seq<Command>, actions: seq<Action>) returns (more: seq<Action>)
    requires |buffer| >= 2 && Serve(buffer, actions).At?
    ensures Serve(buffer, actions + more).At? && Submits(actions + more) == Submits(actions)
    ensures var s, t := Serve(buffer, actions).server, Serve(buffer, actions + more).server;
            t.submitted == s.submitted && Dispatched(t) == |t.submitted| && t.pending.Empty?
    decreases Undone(Serve(buffer, actions).server), ProducerLeft(Serve(buffer, actions).server),
              ConsumerLeft(Serve(buffer, actions).server)
  {
    hide ServerOk, Act, Allowed, Serve, Inv;
    var s := Serve(buffer, actions).server;
    WithinBounds(s);
    var a: Action;
    if s.taken.Holds? || !s.queue.consumer.CIdle? || |s.queue.popped| < |s.queue.pushed| {
      a := ConsumerWorks(s);
    } else if s.pending.Holds? {
      a := ProducerWorks(s);
    } else {
      AllDone(s);
      more := [];
      assert actions + more == actions;
      return;
    }
    WithinBounds(Act(s, a));
    ServeNext(buffer, actions, a);
    more := CanFinish(buffer, actions + [a]);
    assert actions + [a] + more == actions + ([a] + more);
    more := [a] + more;
  }

  lemma WithinBounds(s: Server)
    requires ServerOk(s)
    ensures Inv(s.queue) && s.queue.buffer != [] && |s.queue.popped| <= |s.queue.pushed| && Undone(s) >= 0
  {
  }

  /** The run submits these requests, in this order, and dispatches them all. */
  ghost predicate Serves(buffer: seq<Command>, actions: seq<Action>, requests: seq<(Request, int)>)
    requires buffer != []
  {
    && Serve(buffer, actions).At? && Submits(actions) == requests
    && Dispatched(Serve(buffer, actions).server) == |requests|
  }

  lemma {:induction false} ServesAll(buffer: seq<Command>, requests: seq<(Request, int)>)
    returns (actions: seq<Action>)
    requires |buffer| >= 2
    ensures Serves(buffer, actions, requests) && Serve(buffer, actions).server.pending.Empty?
  {
    hide ServerOk, Inv, Allowed, Act, AsRequested;
    if requests == [] {
      actions := [];
      NothingServed(buffer);
    } else {
      var before, last := requests[..|requests| - 1], requests[|requests| - 1];
      actions := ServesAll(buffer, before);
      var a := Submit(last.0, last.1);
      SubmitAllowed(Serve(buffer, actions).server, a);
      ServeNext(buffer, actions, a);
      actions := actions + [a];
      var more := CanFinish(buffer, actions);
      actions := actions + more;
      SubmittedAsRequested(buffer, actions);
      assert requests == before + [last];
    }
  }

  lemma NothingServed(buffer: seq<Command>)
    requires buffer != []
    ensures Serves(buffer, [], []) && Serve(buffer, []).server.pending.Empty?
  {
  }

  lemma SubmitAllowed(s: Server, a: Action)
    requires a.Submit? && s.pending.Empty?
    ensures Allowed(s, a)
  {
  }

  /** In a ring of one slot the test for a full ring never passes. */
  lemma {:induction false} OneSlotTakesNothing(buffer: seq<Command>, actions: seq<Action>)
    requires |buffer| == 1 && Serve(buffer, actions).At?
    ensures Serve(buffer, actions).server.queue.pushed == []
  {
    if actions != [] {
      var before := actions[..|actions| - 1];
      OneSlotTakesNothing(buffer, before);
      OneSlotKeeps(Serve(buffer, before).server, actions[|actions| - 1]);
    }
  }

  lemma OneSlotKeeps(s: Server, a: Action)
    requires ServerOk(s) && Allowed(s, a) && |s.queue.buffer| == 1 && s.queue.pushed == []
    ensures Act(s, a).queue.pushed == []
  {
  }

  /** Exactly when a list of requests can be served to the end. */
  lemma ServableIff(buffer: seq<Command>, requests: seq<(Request, int)>)
    requires buffer != []
    ensures (exists actions :: Serves(buffer, actions, requests)) <==> |buffer| >= 2 || requests == []
  {
    hide ServerOk, Inv, Allowed, Act, Serve;
    if |buffer| >= 2 {
      var actions := ServesAll(buffer, requests);
    } else if requests == [] {
      NothingServed(buffer);
    } else if exists actions :: Serves(buffer, actions, requests) {
      var actions :| Serves(buffer, actions, requests);
      OneSlotTakesNothing(buffer, actions);
      WithinBounds(Serve(buffer, actions).server);
    }
  }
}
