/** What holds of the exchange after any run of commands with fresh ids. */
module Results {
  import opened Orders
  import opened BookSpec
  import opened BookRuns
  import opened Sweeps
  import opened ExchangeSpec
  import opened Routing
  import opened Priorities

  // ----- one command, from any reachable exchange

  lemma RunAppend(cs: seq<Command>, c: Command)
    ensures ExRun(cs + [c]) == Dispatch(ExRun(cs), c)
  {
    assert (cs + [c])[..|cs|] == cs;
  }

  function Counted(b: Book): Book {
    b.(stats := b.stats.(totalOrders := b.stats.totalOrders + 1))
  }

  lemma CountedGood(b: Book)
    requires Good(b)
    ensures Good(Counted(b))
  {
  }

  /** A dispatched NEW is one sweep of its own symbol's book, and nothing else moves. */
  lemma NewIsOneSweep(cs: seq<Command>, c: Command)
    requires FreshIds(cs + [c]) && c.New?
    ensures var b := BookOf(ExRun(cs), c.symbol);
            && BookOf(ExRun(cs + [c]), c.symbol) == SweepBook(Counted(b), OrderOf(c))
            && DispatchTrades(ExRun(cs), c) == SweepTrades(Counted(b), OrderOf(c))
    ensures forall s :: s != c.symbol ==> BookOf(ExRun(cs + [c]), s) == BookOf(ExRun(cs), s)
  {
    hide FreshIds, ExRun, Dispatch, DispatchTrades, Good, SweepBook, SweepTrades, MatchBook, MatchTrades, BookOf;
    Reachable(cs, c);
    RunAppend(cs, c);
    var b, o := BookOf(ExRun(cs), c.symbol), OrderOf(c);
    CountedGood(b);
    GoodSweep(Counted(b), o);
    assert Add(b, o) == Insert(Counted(b), o);
    forall s ensures BookOf(Dispatch(ExRun(cs), c), s)
                  == if Concerns(s, c) then BookStep(BookOf(ExRun(cs), s), c) else BookOf(ExRun(cs), s) {
      StepRoutes(ExRun(cs), c, s);
    }
    StepRoutes(ExRun(cs), c, c.symbol);
  }

  lemma GoodSweep(b: Book, o: Order)
    requires Good(b)
    ensures MatchBook(Insert(b, o)) == SweepBook(b, o) && MatchTrades(Insert(b, o)) == SweepTrades(b, o)
  {
    InsertMatchIsSweep(b, o);
  }

  /** The exchange between two commands. */
  lemma Reachable(cs: seq<Command>, c: Command)
    requires FreshIds(cs + [c])
    ensures FreshIds(cs) && IndexCovers(ExRun(cs))
    ensures forall s :: Good(BookOf(ExRun(cs), s))
  {
    assert (cs + [c])[..|cs|] == cs;
    NewIsFresh(cs + [c]);
    RunIndex(cs);
    EmptyGood();
  }

  /** A dispatched MODIFY either reinserts, and is then one sweep of the book
      without the old order, or it trades nothing. */
  lemma ModifyIsOneSweep(cs: seq<Command>, c: Command)
    requires FreshIds(cs + [c]) && c.Modify?
    ensures var b := BookOf(ExRun(cs), c.modifySymbol);
            var b' := BookOf(ExRun(cs + [c]), c.modifySymbol);
            var trades := DispatchTrades(ExRun(cs), c);
            if Live(b, c.modifyId) && !KeepsPriority(b, c.modifyId, c.newQuantity, c.newPrice) then
              var o := Order(c.modifyId, Lookup(b, c.modifyId).side, c.newPrice, c.newQuantity, c.modifyTime);
              b' == SweepBook(CancelIn(b, c.modifyId), o) && trades == SweepTrades(CancelIn(b, c.modifyId), o)
            else
              b' == Effect(b, c) && trades == []
  {
    hide FreshIds, ExRun, Dispatch, DispatchTrades, SweepBook, SweepTrades, MatchBook, MatchTrades, BookOf,
         WellFormed, Uncrossed, ModifyIn, KeepsPriority, CancelIn, Live;
    Reachable(cs, c);
    RunAppend(cs, c);
    var b := BookOf(ExRun(cs), c.modifySymbol);
    StepRoutes(ExRun(cs), c, c.modifySymbol);
    assert Good(b);
    if Live(b, c.modifyId) && !KeepsPriority(b, c.modifyId, c.newQuantity, c.newPrice) {
      ModifyMatchIsSweep(b, c.modifyId, c.newQuantity, c.newPrice, c.modifyTime);
    } else {
      ModifyWithoutMatch(b, c.modifyId, c.newQuantity, c.newPrice, c.modifyTime);
    }
  }

  // ----- positive quantities

  ghost predicate PositiveCommand(c: Command) {
    (c.New? ==> c.quantity > 0) && (c.Modify? ==> c.newQuantity > 0)
  }

  ghost predicate PositiveBook(b: Book) {
    Positive(b.bids) && Positive(b.asks)
  }

  ghost predicate PositiveTrades(trades: seq<Trade>) {
    forall i :: 0 <= i < |trades| ==> trades[i].quantity > 0
  }

  /** What a command needs for positivity: a NEW, and a MODIFY of an order that
      rests in the book it names, must ask for a positive quantity. */
  ghost predicate Accepted(b: Book, c: Command) {
    (c.New? ==> c.quantity > 0) && (c.Modify? && Live(b, c.modifyId) ==> c.newQuantity > 0)
  }

  ghost predicate PositiveStep(b: Book, c: Command) {
    PositiveBook(BookStep(b, c)) && PositiveTrades(StepTrades(b, c))
  }

  lemma NewPositiveIff(b: Book, c: Command)
    requires Good(b) && PositiveBook(b) && c.New?
    ensures PositiveStep(b, c) <==> c.quantity > 0
  {
    hide WellFormed, MatchBook, MatchTrades, Insert, Positive;
    CountedGood(b);
    PositivityIff(Counted(b), OrderOf(c));
    assert Add(b, OrderOf(c)) == Insert(Counted(b), OrderOf(c)) by {
      CountedInsert(b, OrderOf(c));
    }
  }

  lemma CountedInsert(b: Book, o: Order)
    ensures Add(b, o) == Insert(Counted(b), o)
  {
  }

  lemma CancelPositive(b: Book, id: nat)
    requires PositiveBook(b)
    ensures PositiveBook(CancelIn(b, id))
  {
    hide Pos;
  }

  lemma ModifyPositiveIff(b: Book, c: Command)
    requires Good(b) && PositiveBook(b) && c.Modify?
    ensures PositiveStep(b, c) <==> !Live(b, c.modifyId) || c.newQuantity > 0
  {
    hide WellFormed, Uncrossed, MatchBook, MatchTrades, Insert, Positive, Live, CancelIn, KeepsPriority;
    var id := c.modifyId;
    if Live(b, id) && !KeepsPriority(b, id, c.newQuantity, c.newPrice) {
      CancelPositive(b, id);
      WithoutWellFormed(b, id);
      CancelUncrossed(b, id);
      PositivityIff(CancelIn(b, id), Order(id, Lookup(b, id).side, c.newPrice, c.newQuantity, c.modifyTime));
    } else {
      ModifyWithoutMatch(b, id, c.newQuantity, c.newPrice, c.modifyTime);
      KeepingLives(b, id, c.newQuantity, c.newPrice);
      if Live(b, id) {
        InPlacePositivityIff(b, id, c.newQuantity, c.newPrice, c.modifyTime);
      }
    }
  }

  lemma KeepingLives(b: Book, id: nat, newQty: int, newPrice: Price)
    ensures KeepsPriority(b, id, newQty, newPrice) ==> Live(b, id)
  {
  }

  /** The exact step: from a positive book, every resting order and every trade
      after a command is positive if and only if the command is acceptable. */
  lemma StepPositiveIff(b: Book, c: Command)
    requires Good(b) && PositiveBook(b)
    ensures PositiveStep(b, c) <==> Accepted(b, c)
  {
    hide Good, PositiveBook, CancelIn, Live, ModifyIn, Add, MatchBook, MatchTrades;
    if c.New? {
      NewPositiveIff(b, c);
    } else if c.Modify? {
      ModifyPositiveIff(b, c);
    } else if c.Cancel? {
      CancelPositive(b, c.cancelId);
    }
  }

  /** If every NEW and MODIFY asks for a positive quantity, every resting order
      and every trade of the run has one; so all results about positive books
      hold at every step of such a run. */
  lemma {:induction false} RunPositive(cs: seq<Command>)
    requires FreshIds(cs) && forall i :: 0 <= i < |cs| ==> PositiveCommand(cs[i])
    ensures PositiveBook(BookRun(cs)) && PositiveTrades(RunTrades(cs))
  {
    hide FreshIds, Submitted, PositiveBook, BookStep, StepTrades;
    if cs == [] {
      NothingPositive();
    } else {
      var before, c := cs[..|cs| - 1], cs[|cs| - 1];
      NewIsFresh(cs);
      RunGood(before);
      RunPositive(before);
      StepPositiveIff(BookRun(before), c);
    }
  }

  lemma NothingPositive()
    ensures PositiveBook(EMPTY_BOOK)
  {
  }

  // ----- positive quantities in the exchange, exactly

  ghost predicate PositiveExchange(ex: ExState) {
    forall s :: PositiveBook(BookOf(ex, s))
  }

  ghost predicate AcceptedBy(ex: ExState, c: Command) {
    Matches(c) ==> Accepted(BookOf(ex, SymbolOf(c)), c)
  }

  lemma DispatchPositiveIff(ex: ExState, c: Command)
    requires IndexCovers(ex) && (forall s :: Good(BookOf(ex, s))) && PositiveExchange(ex)
    ensures PositiveExchange(Dispatch(ex, c)) && PositiveTrades(DispatchTrades(ex, c)) <==> AcceptedBy(ex, c)
  {
    hide IndexCovers, BookOf, Dispatch, Good, PositiveBook, PositiveTrades, BookStep, StepTrades, Accepted;
    forall s
      ensures BookOf(Dispatch(ex, c), s) == if Concerns(s, c) then BookStep(BookOf(ex, s), c) else BookOf(ex, s)
      ensures PositiveStep(BookOf(ex, s), c) <==> Accepted(BookOf(ex, s), c)
    {
      StepRoutes(ex, c, s);
      StepPositiveIff(BookOf(ex, s), c);
    }
    if Matches(c) {
      StepRoutes(ex, c, SymbolOf(c));
      assert Concerns(SymbolOf(c), c);
    } else {
      NoTrades();
      QuietAccepted(c);
    }
  }

  lemma QuietAccepted(c: Command)
    requires !Matches(c)
    ensures forall b: Book :: Accepted(b, c)
  {
  }

  lemma NoTrades()
    ensures PositiveTrades([])
  {
  }

  /** The exchange has the property after every prefix of the run, the empty one included. */
  ghost predicate Throughout(p: ExState -> bool, cs: seq<Command>) {
    forall k :: 0 <= k <= |cs| ==> p(ExRun(cs[..k]))
  }

  /** Every command of the run stands in the relation to the exchange it arrives at. */
  ghost predicate Each(a: (ExState, Command) -> bool, cs: seq<Command>) {
    forall i :: 0 <= i < |cs| ==> a(ExRun(cs[..i]), cs[i])
  }

  lemma PrefixesGrow(p: ExState -> bool, a: (ExState, Command) -> bool, cs: seq<Command>)
    ensures Throughout(p, cs) ==> p(ExRun(cs))
    ensures cs != [] ==>
      var before := cs[..|cs| - 1];
      && (Throughout(p, cs) <==> Throughout(p, before) && p(ExRun(cs)))
      && (Each(a, cs) <==> Each(a, before) && a(ExRun(before), cs[|cs| - 1]))
  {
    hide ExRun;
    assert cs[..|cs|] == cs;
    if cs != [] {
      var before := cs[..|cs| - 1];
      assert forall k :: 0 <= k <= |before| ==> before[..k] == cs[..k];
    }
  }

  lemma TradesSplit(s: seq<Trade>, t: seq<Trade>)
    ensures PositiveTrades(s + t) <==> PositiveTrades(s) && PositiveTrades(t)
  {
    assert forall i :: 0 <= i < |s| ==> (s + t)[i] == s[i];
    assert forall i :: 0 <= i < |t| ==> (s + t)[|s| + i] == t[i];
  }

  /** Nothing validates quantities, and this is exactly when it shows: no order of
      quantity zero or less ever rests and no such trade is ever made, if and only
      if every NEW, and every MODIFY that names an order resting in that symbol's
      book, asks for a positive quantity. */
  lemma {:induction false} RunPositiveIff(cs: seq<Command>)
    requires FreshIds(cs)
    ensures Throughout(PositiveExchange, cs) && PositiveTrades(ExTrades(cs)) <==> Each(AcceptedBy, cs)
  {
    hide FreshIds, Dispatch, DispatchTrades, IndexCovers, Good, BookOf,
         Throughout, Each, PositiveExchange, PositiveTrades, AcceptedBy;
    if cs == [] {
      NothingRunPositive();
    } else {
      var before, c := cs[..|cs| - 1], cs[|cs| - 1];
      assert cs == before + [c];
      Reachable(before, c);
      RunPositiveIff(before);
      PrefixesGrow(PositiveExchange, AcceptedBy, before);
      PrefixesGrow(PositiveExchange, AcceptedBy, cs);
      TradesSplit(ExTrades(before), DispatchTrades(ExRun(before), c));
      if PositiveExchange(ExRun(before)) {
        DispatchPositiveIff(ExRun(before), c);
      }
    }
  }

  lemma NothingRunPositive()
    ensures Throughout(PositiveExchange, []) && Each(AcceptedBy, []) && PositiveTrades(ExTrades([]))
  {
    hide PositiveTrades;
    NoTrades();
  }

  /** The two ways it shows: a NEW for nothing or less rests in an empty book, and
      against a resting order it makes a trade for that quantity. */
  lemma NonPositiveShows(c: Command, ask: Command, bid: Command)
    requires c.New? && c.quantity <= 0
    requires ask.New? && ask.side.Sell? && ask.quantity > 0
    requires bid.New? && bid.side.Buy? && bid.quantity <= 0
    requires bid.orderId != ask.orderId && bid.symbol == ask.symbol && bid.price >= ask.price
    ensures SideOf(BookOf(ExRun([c]), c.symbol), c.side) == [OrderOf(c)]
    ensures DispatchTrades(ExRun([ask]), bid) == [TradeOf(OrderOf(bid), OrderOf(ask))]
    ensures TradeOf(OrderOf(bid), OrderOf(ask)).quantity == bid.quantity
  {
    FirstOrderRests(c);
    TwoCommandsTrade(ask, bid);
  }

  // ----- the routing index, exactly

  /** `id` was submitted by the NEW at `i` and no CANCEL has named it since. */
  ghost predicate OpenSince(cs: seq<Command>, id: nat, i: nat) {
    && i < |cs| && cs[i].New? && cs[i].orderId == id
    && forall j :: i < j < |cs| ==> !(cs[j].Cancel? && cs[j].cancelId == id)
  }

  lemma OpenGrows(before: seq<Command>, c: Command, id: nat, i: nat)
    ensures OpenSince(before + [c], id, i) <==>
      if i < |before| then OpenSince(before, id, i) && !(c.Cancel? && c.cancelId == id)
      else i == |before| && c.New? && c.orderId == id
  {
    var cs := before + [c];
    assert forall j :: 0 <= j < |before| ==> cs[j] == before[j];
    assert cs[|before|] == c;
  }

  lemma StepIndexIs(ex: ExState, c: Command)
    ensures Dispatch(ex, c).index ==
      (match c
       case New(id, _, _, _, _, s) => ex.index[id := s]
       case Cancel(id) => ex.index - {id}
       case _ => ex.index)
  {
  }

  /** An id stays indexed, under the symbol of its NEW, until a CANCEL names it,
      however often and however completely it has been filled meanwhile. */
  lemma {:induction false} IndexIsOpenIds(cs: seq<Command>, id: nat)
    requires FreshIds(cs)
    ensures id in ExRun(cs).index <==> exists i: nat :: OpenSince(cs, id, i)
    ensures forall i: nat :: OpenSince(cs, id, i) ==> ExRun(cs).index[id] == cs[i].symbol
  {
    hide Dispatch, FreshIds, OpenSince;
    if cs == [] {
      NoneOpen(id);
    } else {
      var before, c := cs[..|cs| - 1], cs[|cs| - 1];
      assert cs == before + [c];
      NewIsFresh(cs);
      IndexIsOpenIds(before, id);
      RunIndex(before);
      StepIndexIs(ExRun(before), c);
      IndexStep(before, c, id);
    }
  }

  lemma NoneOpen(id: nat)
    ensures forall i: nat :: !OpenSince([], id, i)
  {
  }

  lemma IndexStep(before: seq<Command>, c: Command, id: nat)
    requires id in ExRun(before).index <==> exists i: nat :: OpenSince(before, id, i)
    requires forall i: nat :: OpenSince(before, id, i) ==> ExRun(before).index[id] == before[i].symbol
    requires c.New? ==> !Submitted(before, c.orderId)
    requires forall x :: x in ExRun(before).index ==> Submitted(before, x)
    ensures var index := Dispatch(ExRun(before), c).index;
            && (id in index <==> exists i: nat :: OpenSince(before + [c], id, i))
            && (forall i: nat :: OpenSince(before + [c], id, i) ==> index[id] == (before + [c])[i].symbol)
  {
    hide Dispatch, ExRun, OpenSince, Submitted;
    var cs := before + [c];
    StepIndexIs(ExRun(before), c);
    forall i: nat
      ensures OpenSince(cs, id, i) <==>
        if i < |before| then OpenSince(before, id, i) && !(c.Cancel? && c.cancelId == id)
        else i == |before| && c.New? && c.orderId == id
    {
      OpenGrows(before, c, id, i);
    }
    if c.New? && c.orderId == id {
      assert OpenSince(cs, id, |before|);
    } else if exists i: nat :: OpenSince(before, id, i) {
      var i: nat :| OpenSince(before, id, i);
      OpenIsIn(before, id, i);
      assert OpenSince(cs, id, i) <==> !(c.Cancel? && c.cancelId == id);
    }
    forall i: nat | OpenSince(cs, id, i) ensures i < |cs| && cs[i].New? {
      OpenIsIn(cs, id, i);
    }
  }

  lemma OpenIsIn(cs: seq<Command>, id: nat, i: nat)
    requires OpenSince(cs, id, i)
    ensures i < |cs| && cs[i].New?
  {
  }

  /** The comment in the code has the routing entry leave after a successful cancel.
      It outlives a filled order, and a rejected CANCEL removes it. */
  lemma EntryOutlivesOrder(ask: Command, bid: Command)
    requires ask.New? && ask.side.Sell? && bid.New? && bid.side.Buy? && bid.quantity == ask.quantity
    requires bid.orderId != ask.orderId && bid.symbol == ask.symbol && bid.price >= ask.price
    ensures var ex, id := ExRun([ask, bid]), ask.orderId;
            && id in ex.index && (forall s :: !Live(BookOf(ex, s), id))
            && id !in ExRun([ask, bid, Cancel(id)]).index
  {
    hide ExRun, BookOf, Live, IndexCovers, OpenSince;
    var id, cs := ask.orderId, [ask, bid];
    var cs' := [ask, bid, Cancel(id)];
    TwoCommandsTrade(ask, bid);
    EmptySidesHold(BookOf(ExRun(cs), ask.symbol), id);
    assert OpenSince(cs, id, 0) by {
      OpenFirst(ask, bid);
    }
    IndexIsOpenIds(cs, id);
    RunIndex(cs);
    forall s | s != ask.symbol ensures !Live(BookOf(ExRun(cs), s), id) {
      NotHere(ExRun(cs), s, id);
    }
    forall i: nat ensures !OpenSince(cs', id, i) {
      NoneOpenAfter(ask, bid, i);
    }
    IndexIsOpenIds(cs', id);
  }

  lemma EmptySidesHold(b: Book, id: nat)
    ensures b.bids == [] && b.asks == [] ==> !Live(b, id)
  {
  }

  lemma OpenFirst(ask: Command, bid: Command)
    requires ask.New? && bid.New?
    ensures OpenSince([ask, bid], ask.orderId, 0)
  {
  }

  lemma NoneOpenAfter(ask: Command, bid: Command, i: nat)
    requires ask.New? && bid.New? && bid.orderId != ask.orderId
    ensures !OpenSince([ask, bid, Cancel(ask.orderId)], ask.orderId, i)
  {
    assert [ask, bid, Cancel(ask.orderId)][2] == Cancel(ask.orderId);
  }

  // ----- time order over whole runs, exactly

  ghost predicate InTimeEverywhere(ex: ExState) {
    forall s :: BookTimeOrdered(BookOf(ex, s))
  }

  ghost predicate ArrivesInTimeAt(ex: ExState, c: Command) {
    Matches(c) ==> ArrivesInTime(BookOf(ex, SymbolOf(c)), c)
  }

  lemma DispatchInTimeIff(ex: ExState, c: Command)
    requires IndexCovers(ex) && (forall s :: Good(BookOf(ex, s))) && InTimeEverywhere(ex)
    ensures InTimeEverywhere(Dispatch(ex, c)) <==> ArrivesInTimeAt(ex, c)
  {
    hide IndexCovers, BookOf, Dispatch, DispatchTrades, Good, BookTimeOrdered, BookStep, StepTrades, ArrivesInTime;
    forall s
      ensures BookOf(Dispatch(ex, c), s) == if Concerns(s, c) then BookStep(BookOf(ex, s), c) else BookOf(ex, s)
      ensures BookTimeOrdered(BookStep(BookOf(ex, s), c)) <==> ArrivesInTime(BookOf(ex, s), c)
    {
      StepRoutes(ex, c, s);
      StepTimeOrderedIff(BookOf(ex, s), c);
    }
    if Matches(c) {
      assert Concerns(SymbolOf(c), c);
    } else {
      QuietArrives(c);
    }
  }

  lemma QuietArrives(c: Command)
    requires !Matches(c)
    ensures forall b: Book :: ArrivesInTime(b, c)
  {
  }

  /** The server stamps with a clock that may step back, and this is exactly when it
      costs time priority: in every symbol, after every command, list order is time
      order, if and only if every order put in, by a NEW or a reinserting MODIFY,
      finds nobody with a later stamp at its price. */
  lemma {:induction false} RunInTimeIff(cs: seq<Command>)
    requires FreshIds(cs)
    ensures Throughout(InTimeEverywhere, cs) <==> Each(ArrivesInTimeAt, cs)
  {
    hide FreshIds, Dispatch, IndexCovers, Good, BookOf, Throughout, Each, InTimeEverywhere, ArrivesInTimeAt;
    if cs == [] {
      NothingRunInTime();
    } else {
      var before, c := cs[..|cs| - 1], cs[|cs| - 1];
      assert cs == before + [c];
      Reachable(before, c);
      RunInTimeIff(before);
      PrefixesGrow(InTimeEverywhere, ArrivesInTimeAt, before);
      PrefixesGrow(InTimeEverywhere, ArrivesInTimeAt, cs);
      if InTimeEverywhere(ExRun(before)) {
        DispatchInTimeIff(ExRun(before), c);
      }
    }
  }

  lemma NothingRunInTime()
    ensures Throughout(InTimeEverywhere, []) && Each(ArrivesInTimeAt, [])
  {
  }

  /** An input: two NEWs at one price, the clock stepping back in between. The second
      stands behind the first although its stamp is earlier. */
  lemma ClockStepsBack(first: Command, second: Command)
    requires first.New? && second.New? && first.orderId != second.orderId
    requires first.symbol == second.symbol && first.side == second.side && first.price == second.price
    requires second.timestamp < first.timestamp
    ensures !BookTimeOrdered(BookOf(ExRun([first, second]), first.symbol))
  {
    hide ExRun, BookOf, Dispatch, DispatchTrades, BookStep, Good, IndexCovers;
    FirstOrderRests(first);
    assert FreshIds([first] + [second]);
    Reachable([first], second);
    RunAppend([first], second);
    var b := BookOf(ExRun([first]), first.symbol);
    assert SideOf(b, second.side)[0] == OrderOf(first);
    StepRoutes(ExRun([first]), second, first.symbol);
    StepTimeOrderedIff(b, second);
    assert [first] + [second] == [first, second];
  }

  // ----- prices over whole runs

  /** The books of a run with positive quantities are positive. */
  lemma ReachablePositive(cs: seq<Command>, s: Symbol)
    requires FreshIds(cs) && forall i :: 0 <= i < |cs| ==> PositiveCommand(cs[i])
    ensures PositiveBook(BookOf(ExRun(cs), s))
  {
    hide FreshIds, PositiveCommand, PositiveBook;
    RoutingIsBroadcast(cs, s);
    SelectFresh(s, cs);
    SelectWithin(s, cs);
    RunPositive(Select(s, cs));
  }

  /** Whatever the quantities and the order of earlier stamps, a NEW stamped later
      than everything before it trades with the opposite queue in priority order,
      each time at the resting order's price. If all quantities are positive, no
      fill exceeds its resting order and the total respects the NEW's own limit. */
  lemma NewTradesAtRestingPrices(cs: seq<Command>, c: Command)
    requires FreshIds(cs + [c]) && c.New?
    requires forall i :: 0 <= i < |cs| && Matches(cs[i]) ==> Stamp(cs[i]) < c.timestamp
    ensures var opp := SideOf(BookOf(ExRun(cs), c.symbol), Opposite(c.side));
            var trades := DispatchTrades(ExRun(cs), c);
            && |trades| <= |opp|
            && (forall i :: 0 <= i < |trades| ==>
                 && trades[i].price == opp[i].price
                 && trades[i].buyer == (if c.side.Buy? then c.orderId else opp[i].orderId)
                 && trades[i].seller == (if c.side.Buy? then opp[i].orderId else c.orderId))
            && (c.quantity > 0 && (forall i :: 0 <= i < |cs| ==> PositiveCommand(cs[i])) ==>
                 && CostRespects(c.side, c.price, trades)
                 && forall i :: 0 <= i < |trades| ==> 0 < trades[i].quantity <= opp[i].quantity)
  {
    hide FreshIds, ExRun, Dispatch, DispatchTrades, BookOf, PositiveCommand, Sweep, Meets, Cost;
    Reachable(cs, c);
    NewIsOneSweep(cs, c);
    ExchangeStampedBy(cs, c.symbol, c.timestamp - 1);
    var o, opp := OrderOf(c), SideOf(BookOf(ExRun(cs), c.symbol), Opposite(c.side));
    LaterSweepsAtRestingPrices(o, opp);
    forall i | 0 <= i < |Sweep(o, opp).trades|
      ensures Sweep(o, opp).trades[i] == TradeBetween(o, opp[i]).(quantity := Sweep(o, opp).trades[i].quantity)
    {
      SweepMeets(o, opp, i);
    }
    if c.quantity > 0 && forall i :: 0 <= i < |cs| ==> PositiveCommand(cs[i]) {
      ReachablePositive(cs, c.symbol);
      CostWithinLimit(o, opp);
      forall i | 0 <= i < |Sweep(o, opp).trades| ensures 0 < Sweep(o, opp).trades[i].quantity <= opp[i].quantity {
        SweepFillBounds(o, opp, i);
      }
    }
  }

  /** Without any assumption on stamps or quantities: the trades of a dispatched NEW
      are all at the resting price exactly when every resting order it gets to is
      stamped early enough or priced the same. */
  lemma NewPaysRestingIff(cs: seq<Command>, c: Command)
    requires FreshIds(cs + [c]) && c.New?
    ensures var opp := SideOf(BookOf(ExRun(cs), c.symbol), Opposite(c.side));
            var trades := DispatchTrades(ExRun(cs), c);
            && |trades| <= |opp|
            && ((forall i :: 0 <= i < |trades| ==> trades[i].price == opp[i].price)
                <==> (forall i :: 0 <= i < |opp| && Meets(OrderOf(c), opp, i) ==> PaysResting(OrderOf(c), opp[i])))
  {
    hide FreshIds, ExRun, Dispatch, DispatchTrades, BookOf, Sweep, Meets, PaysResting;
    Reachable(cs, c);
    NewIsOneSweep(cs, c);
    RestingPriceIff(OrderOf(c), SideOf(BookOf(ExRun(cs), c.symbol), Opposite(c.side)));
  }

  /** And of a reinserting MODIFY, which meets the queue opposite to its order in
      the book without that order. */
  lemma ModifyPaysRestingIff(cs: seq<Command>, c: Command)
    requires FreshIds(cs + [c]) && c.Modify?
    requires var b := BookOf(ExRun(cs), c.modifySymbol);
             Live(b, c.modifyId) && !KeepsPriority(b, c.modifyId, c.newQuantity, c.newPrice)
    ensures var b := BookOf(ExRun(cs), c.modifySymbol);
            var o := Order(c.modifyId, Lookup(b, c.modifyId).side, c.newPrice, c.newQuantity, c.modifyTime);
            var opp := SideOf(b, Opposite(o.side));
            var trades := DispatchTrades(ExRun(cs), c);
            && |trades| <= |opp|
            && ((forall i :: 0 <= i < |trades| ==> trades[i].price == opp[i].price)
                <==> (forall i :: 0 <= i < |opp| && Meets(o, opp, i) ==> PaysResting(o, opp[i])))
  {
    hide FreshIds, ExRun, Dispatch, DispatchTrades, BookOf, Sweep, SweepBook, Meets, PaysResting,
         KeepsPriority, Live;
    Reachable(cs, c);
    ModifyIsOneSweep(cs, c);
    var b := BookOf(ExRun(cs), c.modifySymbol);
    var o := Order(c.modifyId, Lookup(b, c.modifyId).side, c.newPrice, c.newQuantity, c.modifyTime);
    LookupSide(b, c.modifyId);
    OppositeUntouched(b, c.modifyId);
    RestingPriceIff(o, SideOf(b, Opposite(o.side)));
  }

  lemma OppositeUntouched(b: Book, id: nat)
    requires WellFormed(b) && Live(b, id)
    ensures var side := Opposite(Lookup(b, id).side); SideOf(CancelIn(b, id), side) == SideOf(b, side)
  {
    LookupSide(b, id);
  }

  /** The documented resting-price rule fails on a tie: two commands with the same
      stamp, after which the buyer pays its own limit and not the resting 100. */
  lemma TiePaysTheBid()
    ensures DispatchTrades(ExRun([New(1, Sell, 100.0, 5, 7, "A")]), New(2, Buy, 110.0, 5, 7, "A"))
         == [Trade(110.0, 5, 2, 1)]
  {
    TwoCommandsTrade(New(1, Sell, 100.0, 5, 7, "A"), New(2, Buy, 110.0, 5, 7, "A"));
  }

  /** So it does when the buyer asks for nothing, which the server lets through. */
  lemma EmptyTiePaysTheBid()
    ensures DispatchTrades(ExRun([New(1, Sell, 100.0, 5, 7, "A")]), New(2, Buy, 110.0, 0, 7, "A"))
         == [Trade(110.0, 0, 2, 1)]
  {
    TwoCommandsTrade(New(1, Sell, 100.0, 5, 7, "A"), New(2, Buy, 110.0, 0, 7, "A"));
  }

  /** A buyer that asks for no more than the only seller offers, at its price or better. */
  lemma TwoCommandsTrade(ask: Command, bid: Command)
    requires ask.New? && ask.side.Sell? && bid.New? && bid.side.Buy? && bid.quantity <= ask.quantity
    requires bid.orderId != ask.orderId && bid.symbol == ask.symbol && bid.price >= ask.price
    ensures DispatchTrades(ExRun([ask]), bid) == [TradeOf(OrderOf(bid), OrderOf(ask))]
    ensures var b := BookOf(ExRun([ask, bid]), ask.symbol);
            b.bids == [] && b.asks == FillFront([OrderOf(ask)], bid.quantity)
  {
    hide ExRun, Dispatch, DispatchTrades, BookOf, Sweep;
    FirstOrderRests(ask);
    assert FreshIds([ask] + [bid]);
    NewIsOneSweep([ask], bid);
    OneAgainstOne(OrderOf(bid), OrderOf(ask));
    assert [ask] + [bid] == [ask, bid];
  }

  lemma FirstOrderRests(c: Command)
    requires c.New?
    ensures var b := BookOf(ExRun([c]), c.symbol);
            SideOf(b, c.side) == [OrderOf(c)] && SideOf(b, Opposite(c.side)) == []
  {
    hide Dispatch, DispatchTrades, ExRun, BookOf, SweepBook, SweepTrades;
    assert [] + [c] == [c];
    NothingRun(c.symbol);
    NewIsOneSweep([], c);
    SweepsNobody(Counted(EMPTY_BOOK), OrderOf(c));
  }

  lemma NothingRun(s: Symbol)
    ensures BookOf(ExRun([]), s) == EMPTY_BOOK
  {
  }

  lemma SweepsNobody(b: Book, o: Order)
    requires b.bids == [] && b.asks == []
    ensures SideOf(SweepBook(b, o), o.side) == [o] && SideOf(SweepBook(b, o), Opposite(o.side)) == []
  {
    assert Inserted([], o) == [o];
  }

  /** An order that crosses one at least as large makes one trade, and is then used up. */
  lemma OneAgainstOne(o: Order, r: Order)
    requires Reaches(o, r) && o.quantity <= r.quantity
    ensures var s := Sweep(o, [r]);
            s.trades == [TradeBetween(o, r)] && !s.rests && s.opposite == FillFront([r], o.quantity)
  {
  }
}
