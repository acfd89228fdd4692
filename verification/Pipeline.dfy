/** The whole server as one machine: the network thread numbers commands and
    retries its push until the ring takes it; the matching thread pops and
    dispatches. Their atomic steps interleave freely. */
module Pipeline {
  import opened Orders
  import opened BookSpec
  import opened BookRuns
  import opened ExchangeSpec
  import opened Routing
  import opened SpscSpec

  /** A line that parsed. Lines that do not parse are dropped before this point. */
  datatype Request =
    | NewRequest(side: Side, price: Price, quantity: int, symbol: Symbol)
    | CancelRequest(orderId: nat)
    | ModifyRequest(orderId: nat, symbol: Symbol, quantity: int, price: Price)
    | StatsRequest
    | BookRequest(symbol: Symbol)

  function CommandFor(r: Request, nextOrderId: nat, timestamp: int): Command {
    match r
    case NewRequest(side, price, quantity, symbol) => New(nextOrderId, side, price, quantity, timestamp, symbol)
    case CancelRequest(id) => Cancel(id)
    case ModifyRequest(id, symbol, quantity, price) => Modify(id, symbol, quantity, price, timestamp)
    case StatsRequest => Stats
    case BookRequest(symbol) => BookQuery(symbol)
  }

  /** Field by field, the command says what the request asked for, and is stamped. */
  ghost predicate AsRequested(c: Command, r: Request, timestamp: int) {
    && (c.New? <==> r.NewRequest?)
    && (c.New? ==>
          && c.side == r.side && c.price == r.price && c.quantity == r.quantity
          && c.symbol == r.symbol && c.timestamp == timestamp)
    && (c.Cancel? <==> r.CancelRequest?)
    && (c.Cancel? ==> c.cancelId == r.orderId)
    && (c.Modify? <==> r.ModifyRequest?)
    && (c.Modify? ==>
          && c.modifyId == r.orderId && c.modifySymbol == r.symbol && c.newQuantity == r.quantity
          && c.newPrice == r.price && c.modifyTime == timestamp)
    && (c.Stats? <==> r.StatsRequest?)
    && (c.BookQuery? <==> r.BookRequest?)
    && (c.BookQuery? ==> c.bookSymbol == r.symbol)
  }

  /** The order counter of the network thread. */
  class Gateway {
    var nextOrderId: nat

    constructor ()
      ensures nextOrderId == 1
    {
      nextOrderId := 1;
    }

    /** Only NEW draws an id. */
    method Number(r: Request, timestamp: int) returns (cmd: Command)
      modifies this
      ensures cmd == CommandFor(r, old(nextOrderId), timestamp)
      ensures AsRequested(cmd, r, timestamp)
      ensures r.NewRequest? ==> cmd.orderId == old(nextOrderId)
      ensures nextOrderId == old(nextOrderId) + (if r.NewRequest? then 1 else 0)
    {
      cmd := CommandFor(r, nextOrderId, timestamp);
      if r.NewRequest? {
        nextOrderId := nextOrderId + 1;
      }
    }
  }

  datatype Hand = Empty | Holds(cmd: Command)

  /** `pending` is the command the network thread is pushing, `taken` the one the
      matching thread has popped and not yet dispatched. The tape is the trade
      output so far. */
  datatype Server = Server(
    queue: State<Command>, nextOrderId: nat, pending: Hand, taken: Hand,
    exchange: ExState, tape: seq<Trade>, submitted: seq<Command>)

  datatype Action =
    | Submit(request: Request, timestamp: int)
    | Network(step: Step<Command>)
    | Matching(step: Step<Command>)
    | Dispatching

  predicate OfProducer<T>(step: Step<T>) {
    step.PushCall? || step.PushLoadHead? || step.PushTest? || step.PushWrite? || step.PushStore?
  }

  function Start(buffer: seq<Command>): Server {
    Server(Init(buffer), 1, Empty, Empty, EMPTY_EXCHANGE, [], [])
  }

  /** The threads' own control flow on top of the queue's: a thread with a command
      in hand finishes it first, and a push that found the ring full is tried again. */
  predicate Allowed(s: Server, a: Action) {
    match a
    case Submit(_, _) => s.pending.Empty?
    case Network(step) =>
      OfProducer(step) && Enabled(s.queue, step) && (step.PushCall? ==> s.pending == Holds(step.item))
    case Matching(step) =>
      !OfProducer(step) && Enabled(s.queue, step) && (step.PopCall? ==> s.taken.Empty?)
    case Dispatching => s.taken.Holds?
  }

  function Act(s: Server, a: Action): Server
    requires Inv(s.queue) && Allowed(s, a)
  {
    match a
    case Submit(r, timestamp) =>
      var cmd := CommandFor(r, s.nextOrderId, timestamp);
      s.(nextOrderId := s.nextOrderId + (if r.NewRequest? then 1 else 0),
         pending := Holds(cmd), submitted := s.submitted + [cmd])
    case Network(step) =>
      s.(queue := Next(s.queue, step), pending := if step.PushStore? then Empty else s.pending)
    case Matching(step) =>
      s.(queue := Next(s.queue, step),
         taken := if step.PopStore? then Holds(s.queue.consumer.item) else s.taken)
    case Dispatching =>
      s.(exchange := Dispatch(s.exchange, s.taken.cmd), taken := Empty,
         tape := s.tape + DispatchTrades(s.exchange, s.taken.cmd))
  }

  // ----- invariant

  function InHand(h: Hand): seq<Command> {
    if h.Empty? then [] else [h.cmd]
  }

  /** How many commands have been dispatched. */
  function Dispatched(s: Server): int {
    |s.queue.popped| - |InHand(s.taken)|
  }

  /** Nothing submitted is lost, repeated or overtaken. */
  ghost predicate InOrder(s: Server) {
    && s.submitted == s.queue.pushed + InHand(s.pending)
    && (s.taken.Holds? ==> s.queue.popped != [] && s.taken.cmd == s.queue.popped[|s.queue.popped| - 1])
    && (s.taken.Holds? ==> s.queue.consumer.CIdle?)
    && (!s.queue.producer.PIdle? ==> s.pending == Holds(s.queue.producer.item))
  }

  ghost predicate IdsFromCounter(s: Server) {
    && FreshIds(s.submitted)
    && forall i :: 0 <= i < |s.submitted| && s.submitted[i].New? ==> s.submitted[i].orderId < s.nextOrderId
  }

  ghost predicate ServerOk(s: Server) {
    && Inv(s.queue)
    && InOrder(s)
    && IdsFromCounter(s)
    && 0 <= Dispatched(s) <= |s.submitted|
    && s.exchange == ExRun(s.submitted[..Dispatched(s)])
    && s.tape == ExTrades(s.submitted[..Dispatched(s)])
  }

  lemma PoppedWithin(s: Server)
    requires Inv(s.queue) && InOrder(s)
    ensures |s.queue.popped| <= |s.submitted| && s.queue.popped == s.submitted[..|s.queue.popped|]
  {
    LatestAllowed(s.queue);
    assert s.queue.pushed == s.submitted[..|s.queue.pushed|];
  }

  lemma SubmitKeeps(s: Server, r: Request, timestamp: int)
    requires ServerOk(s) && s.pending.Empty?
    ensures ServerOk(Act(s, Submit(r, timestamp)))
  {
    hide Inv, ExRun, ExTrades;
    var s' := Act(s, Submit(r, timestamp));
    assert s'.submitted[..Dispatched(s)] == s.submitted[..Dispatched(s)];
  }

  lemma QueueStepFacts(q: State<Command>, step: Step<Command>)
    requires Inv(q) && Enabled(q, step)
    ensures var q' := Next(q, step);
            && Inv(q') && |q'.buffer| == |q.buffer|
            && q'.pushed == (if step.PushStore? then q.pushed + [q.producer.item] else q.pushed)
            && q'.popped == (if step.PopStore? then q.popped + [q.consumer.item] else q.popped)
            && (OfProducer(step) ==> q'.consumer == q.consumer)
            && (!OfProducer(step) ==> q'.producer == q.producer)
            && (OfProducer(step) && !q'.producer.PIdle? ==>
                  q'.producer.item == if step.PushCall? then step.item else q.producer.item)
            && (OfProducer(step) && !step.PushCall? ==> !q.producer.PIdle?)
            && (!OfProducer(step) && !step.PopCall? ==> !q.consumer.CIdle?)
            && (step.PopStore? ==> q'.consumer.CIdle?)
            && (step.PushStore? ==> q'.producer.PIdle?)
  {
    StepKeeps(q, step);
  }

  lemma NetworkKeeps(s: Server, step: Step<Command>)
    requires ServerOk(s) && Allowed(s, Network(step))
    ensures ServerOk(Act(s, Network(step)))
    ensures |Act(s, Network(step)).queue.buffer| == |s.queue.buffer|
  {
    hide Inv, ExRun, ExTrades, Next, Enabled, IdsFromCounter;
    QueueStepFacts(s.queue, step);
    SameIds(s, Act(s, Network(step)));
  }

  lemma MatchingKeeps(s: Server, step: Step<Command>)
    requires ServerOk(s) && Allowed(s, Matching(step))
    ensures ServerOk(Act(s, Matching(step)))
    ensures |Act(s, Matching(step)).queue.buffer| == |s.queue.buffer|
  {
    hide Inv, ExRun, ExTrades, Next, Enabled, IdsFromCounter;
    QueueStepFacts(s.queue, step);
    SameIds(s, Act(s, Matching(step)));
    PoppedWithin(s);
  }

  lemma SameIds(s: Server, s': Server)
    requires IdsFromCounter(s) && s'.submitted == s.submitted && s'.nextOrderId == s.nextOrderId
    ensures IdsFromCounter(s')
  {
  }

  lemma DispatchingKeeps(s: Server)
    requires ServerOk(s) && s.taken.Holds?
    ensures ServerOk(Act(s, Dispatching))
  {
    hide Inv, Dispatch, DispatchTrades, IdsFromCounter, Next, Enabled;
    var s' := Act(s, Dispatching);
    SameIds(s, s');
    PoppedWithin(s);
    var n := Dispatched(s);
    assert s.submitted[..n + 1][..n] == s.submitted[..n];
    assert s.submitted[n] == s.taken.cmd;
  }

  lemma ActKeeps(s: Server, a: Action)
    requires ServerOk(s) && Allowed(s, a)
    ensures ServerOk(Act(s, a))
    ensures |Act(s, a).queue.buffer| == |s.queue.buffer|
  {
    match a {
      case Submit(r, timestamp) => SubmitKeeps(s, r, timestamp);
      case Network(step) => NetworkKeeps(s, step);
      case Matching(step) => MatchingKeeps(s, step);
      case Dispatching => DispatchingKeeps(s);
    }
  }

  // ----- every reachable state

  datatype Progress = Blocked | At(server: Server)

  function Serve(buffer: seq<Command>, actions: seq<Action>): (p: Progress)
    requires buffer != []
    ensures p.At? ==> ServerOk(p.server) && |p.server.queue.buffer| == |buffer|
  {
    if actions == [] then
      InitInv(buffer);
      At(Start(buffer))
    else
      var p := Serve(buffer, actions[..|actions| - 1]);
      var a := actions[|actions| - 1];
      if p.Blocked? || !Allowed(p.server, a) then Blocked
      else
        ActKeeps(p.server, a);
        At(Act(p.server, a))
  }

  /** Main result: under every interleaving the exchange is the sequential fold of
      the commands dispatched so far, and so is the trade output; these commands
      are a prefix of those submitted, in order; and at most the ring and the two
      hands stand between the two. */
  lemma EndToEnd(buffer: seq<Command>, actions: seq<Action>)
    requires buffer != [] && Serve(buffer, actions).At?
    ensures var s := Serve(buffer, actions).server;
            && FreshIds(s.submitted)
            && 0 <= Dispatched(s) <= |s.submitted| <= Dispatched(s) + |buffer| + 1
            && s.exchange == ExRun(s.submitted[..Dispatched(s)])
            && s.tape == ExTrades(s.submitted[..Dispatched(s)])
  {
    var s := Serve(buffer, actions).server;
    BoundedFifo(s.queue);
  }

  /** The requests of a run, each with the stamp it was given. */
  function Submits(actions: seq<Action>): seq<(Request, int)> {
    if actions == [] then []
    else
      var a := actions[|actions| - 1];
      Submits(actions[..|actions| - 1]) + (if a.Submit? then [(a.request, a.timestamp)] else [])
  }

  /** How many of them are NEWs. */
  function NewRequests(requests: seq<(Request, int)>): nat {
    if requests == [] then 0
    else NewRequests(requests[..|requests| - 1]) + (if requests[|requests| - 1].0.NewRequest? then 1 else 0)
  }

  /** The commands are those asked for, in order and each just once, and the n-th NEW carries id n. */
  ghost predicate TakenDown(submitted: seq<Command>, asked: seq<(Request, int)>) {
    && |submitted| == |asked|
    && (forall i :: 0 <= i < |asked| ==> AsRequested(submitted[i], asked[i].0, asked[i].1))
    && (forall i :: 0 <= i < |asked| && asked[i].0.NewRequest? ==>
          submitted[i].New? && submitted[i].orderId == NewRequests(asked[..i + 1]))
  }

  lemma OneMoreTakenDown(submitted: seq<Command>, asked: seq<(Request, int)>, r: Request, timestamp: int)
    requires TakenDown(submitted, asked)
    ensures var asked' := asked + [(r, timestamp)];
            && TakenDown(submitted + [CommandFor(r, NewRequests(asked) + 1, timestamp)], asked')
            && NewRequests(asked') == NewRequests(asked) + (if r.NewRequest? then 1 else 0)
  {
    var asked' := asked + [(r, timestamp)];
    assert asked'[..|asked|] == asked && asked'[..|asked| + 1] == asked';
    assert forall k :: 0 <= k <= |asked| ==> asked'[..k] == asked[..k];
  }

  /** Main result: what the server takes in is what it was asked for. No request is
      lost, doubled, altered or overtaken, however often its push is retried. */
  lemma {:induction false} SubmittedAsRequested(buffer: seq<Command>, actions: seq<Action>)
    requires buffer != [] && Serve(buffer, actions).At?
    ensures var s, asked := Serve(buffer, actions).server, Submits(actions);
            TakenDown(s.submitted, asked) && s.nextOrderId == NewRequests(asked) + 1
  {
    hide ServerOk, Inv, Allowed, Next, Dispatch, DispatchTrades, TakenDown, NewRequests, CommandFor;
    if actions == [] {
      NothingTakenDown();
    } else {
      var before, a := actions[..|actions| - 1], actions[|actions| - 1];
      SubmittedAsRequested(buffer, before);
      var asked := Submits(before);
      assert asked + [] == asked;
      if a.Submit? {
        OneMoreTakenDown(Serve(buffer, before).server.submitted, asked, a.request, a.timestamp);
      }
    }
  }

  lemma NothingTakenDown()
    ensures TakenDown([], []) && NewRequests([]) == 0
  {
  }

  /** In every reachable state with a command in hand, the precondition that the
      exchange leaves to its caller holds: a NEW's id is in no book and not in the index. */
  lemma HandIsDispatchable(buffer: seq<Command>, actions: seq<Action>)
    requires buffer != []
    ensures var p := Serve(buffer, actions);
            p.At? && p.server.taken.Holds? ==>
              var s := p.server;
              && Dispatchable(s.exchange, s.taken.cmd)
              && (s.taken.cmd.New? ==>
                    && s.taken.cmd.orderId !in s.exchange.index
                    && forall symbol :: !Live(BookOf(s.exchange, symbol), s.taken.cmd.orderId))
  {
    hide Inv, ServerOk, ExRun, FreshIds, Live;
    var p := Serve(buffer, actions);
    if p.At? && p.server.taken.Holds? {
      HandIsNext(p.server);
      NextIsDispatchable(p.server.submitted[..Dispatched(p.server)], p.server.taken.cmd);
    }
  }

  lemma HandIsNext(s: Server)
    requires ServerOk(s) && s.taken.Holds?
    ensures 0 <= Dispatched(s) < |s.submitted| && s.exchange == ExRun(s.submitted[..Dispatched(s)])
    ensures FreshIds(s.submitted[..Dispatched(s)] + [s.taken.cmd])
  {
    hide Inv, ExRun, ExTrades, FreshIds;
    PoppedWithin(s);
    var n := Dispatched(s);
    assert s.submitted[n] == s.taken.cmd;
    assert s.submitted[..n] + [s.taken.cmd] == s.submitted[..n + 1];
    FreshPrefix(s.submitted, n + 1);
  }

  lemma FreshPrefix(cs: seq<Command>, n: nat)
    requires FreshIds(cs) && n <= |cs|
    ensures FreshIds(cs[..n])
  {
  }

  /** So every book of every reachable server is well formed and uncrossed. */
  lemma NeverCrossed(buffer: seq<Command>, actions: seq<Action>, symbol: Symbol)
    requires buffer != []
    ensures Serve(buffer, actions).At? ==> Good(BookOf(Serve(buffer, actions).server.exchange, symbol))
  {
    if Serve(buffer, actions).At? {
      EndToEnd(buffer, actions);
      var s := Serve(buffer, actions).server;
      ExchangeKeeps(s.submitted[..Dispatched(s)], symbol, Buy);
    }
  }
}
