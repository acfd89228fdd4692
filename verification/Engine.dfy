/** The matching thread: the switch on command types and the loop around it. */
module Engine {
  import opened Orders
  import opened BookRuns
  import opened Exchanges
  import opened Routing

  /** The switch of the matching thread. STATS and BOOK only print. */
  method Dispatch(exchange: Exchange, cmd: Command) returns (trades: seq<Trade>)
    requires exchange.Valid() && Spec.Dispatchable(exchange.State(), cmd)
    modifies exchange, exchange.Repr
    ensures exchange.Valid() && fresh(exchange.Repr - old(exchange.Repr))
    ensures exchange.State() == Spec.Dispatch(old(exchange.State()), cmd)
    ensures trades == Spec.DispatchTrades(old(exchange.State()), cmd)
    ensures !cmd.New? && !cmd.Modify? ==> trades == []
  {
    trades := [];
    match cmd {
      case New(orderId, side, price, quantity, timestamp, symbol) =>
        exchange.AddOrder(symbol, Order(orderId, side, price, quantity, timestamp));
        trades := exchange.MatchOrders(symbol);
      case Cancel(orderId) =>
        var accepted := exchange.CancelOrder(orderId);
      case Modify(orderId, symbol, quantity, price, timestamp) =>
        var accepted := exchange.ModifyOrder(orderId, symbol, quantity, price, timestamp);
        trades := exchange.MatchOrders(symbol);
      case Stats =>
      case BookQuery(_) =>
    }
  }

  /** The thread's loop over the commands it has popped so far. Fresh ids are all
      that it relies on, and what it has done is the fold of the commands. */
  method MatchingEngine(exchange: Exchange, cmds: seq<Command>) returns (trades: seq<Trade>)
    requires exchange.Valid() && exchange.State() == Spec.EMPTY_EXCHANGE
    requires FreshIds(cmds)
    modifies exchange, exchange.Repr
    ensures exchange.Valid() && fresh(exchange.Repr - old(exchange.Repr))
    ensures exchange.State() == Spec.ExRun(cmds)
    ensures trades == Spec.ExTrades(cmds)
  {
    hide Exchange.Valid, Spec.Dispatch, Spec.DispatchTrades, Spec.Dispatchable;
    trades := [];
    for i := 0 to |cmds|
      invariant exchange.Valid() && fresh(exchange.Repr - old(exchange.Repr))
      invariant exchange.State() == Spec.ExRun(cmds[..i])
      invariant trades == Spec.ExTrades(cmds[..i])
    {
      assert cmds[..i + 1] == cmds[..i] + [cmds[i]];
      assert cmds[..i + 1][..i] == cmds[..i];
      NextIsDispatchable(cmds[..i], cmds[i]);
      var step := Dispatch(exchange, cmds[i]);
      trades := trades + step;
    }
    assert cmds[..|cmds|] == cmds;
  }
}
