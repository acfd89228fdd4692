/** The routing index agrees with its plain meaning. For every run with fresh
    ids, each symbol's book is what a lone book makes of the NEWs and MODIFYs
    naming that symbol and of every CANCEL, whoever it is meant for. */
module Routing {
  import opened Orders
  import opened BookSpec
  import opened Matching
  import opened BookRuns
  import opened Ledgers
  import opened Priorities
  import opened ExchangeSpec

  predicate Concerns(s: Symbol, c: Command) {
    match c
    case New(_, _, _, _, _, sym) => sym == s
    case Cancel(_) => true
    case Modify(_, sym, _, _, _) => sym == s
    case Stats => false
    case BookQuery(_) => false
  }

  function Select(s: Symbol, cs: seq<Command>): seq<Command> {
    if cs == [] then []
    else Select(s, cs[..|cs| - 1]) + (if Concerns(s, cs[|cs| - 1]) then [cs[|cs| - 1]] else [])
  }

  /** Every live order is indexed under its own symbol; stale entries are allowed. */
  ghost predicate IndexCovers(ex: ExState) {
    && (forall s, id :: s in ex.books && Live(ex.books[s], id) ==> id in ex.index && ex.index[id] == s)
    && (forall id :: id in ex.index ==> ex.index[id] in ex.books)
  }

  ghost predicate BooksGood(ex: ExState) {
    forall s :: s in ex.books ==> Good(ex.books[s])
  }

  lemma Absent(b: Book, id: nat, newQty: int, newPrice: Price, timestamp: int)
    requires !Live(b, id)
    ensures CancelIn(b, id) == b && ModifyIn(b, id, newQty, newPrice, timestamp) == b
  {
  }

  lemma Nothing(id: nat)
    ensures !Live(EMPTY_BOOK, id) && MatchBook(EMPTY_BOOK) == EMPTY_BOOK && MatchTrades(EMPTY_BOOK) == []
  {
  }

  /** An order that a symbol's book holds is the index's business, and no other id is the book's. */
  lemma NotHere(ex: ExState, s: Symbol, id: nat)
    requires IndexCovers(ex) && (id in ex.index ==> ex.index[id] != s)
    ensures !Live(BookOf(ex, s), id)
  {
    hide Live;
    if s !in ex.books {
      Nothing(id);
    }
  }

  /** One command does to each symbol's book what a broadcast would. */
  lemma StepRoutes(ex: ExState, c: Command, s: Symbol)
    requires IndexCovers(ex)
    ensures BookOf(Dispatch(ex, c), s) == if Concerns(s, c) then BookStep(BookOf(ex, s), c) else BookOf(ex, s)
    ensures Matches(c) && SymbolOf(c) == s ==> DispatchTrades(ex, c) == StepTrades(BookOf(ex, s), c)
  {
    hide Live, CancelIn, ModifyIn, Add, MatchBook, MatchTrades;
    Nothing(0);
    if c.Cancel? && (c.cancelId in ex.index ==> ex.index[c.cancelId] != s) {
      NotHere(ex, s, c.cancelId);
      Absent(BookOf(ex, s), c.cancelId, 0, 0.0, 0);
    }
    if c.Modify? && (c.modifyId in ex.index ==> ex.index[c.modifyId] != s) {
      NotHere(ex, s, c.modifyId);
      Absent(BookOf(ex, s), c.modifyId, c.newQuantity, c.newPrice, c.modifyTime);
    }
  }

  // ----- adding an order, and the index entry it overwrites

  /** No book holds an order under this id; the index may still have a stale entry. */
  ghost predicate Unused(ex: ExState, id: nat) {
    forall s :: s in ex.books ==> !Live(ex.books[s], id)
  }

  lemma UnindexedUnused(ex: ExState, id: nat)
    requires IndexCovers(ex) && id !in ex.index
    ensures Unused(ex, id)
  {
  }

  lemma AddKeepsCover(ex: ExState, s: Symbol, o: Order)
    requires IndexCovers(ex) && forall t :: t in ex.books && t != s ==> !Live(ex.books[t], o.orderId)
    ensures IndexCovers(AddTo(ex, s, o))
  {
    hide Live, Add;
    var ex' := AddTo(ex, s, o);
    forall t, id | t in ex'.books && Live(ex'.books[t], id) ensures id in ex'.index && ex'.index[id] == t {
      AddCoversOne(ex, s, o, t, id);
    }
    assert ex'.books.Keys == ex.books.Keys + {s};
  }

  lemma AddCoversOne(ex: ExState, s: Symbol, o: Order, t: Symbol, id: nat)
    requires IndexCovers(ex) && (t in ex.books && t != s ==> !Live(ex.books[t], o.orderId))
    requires t in AddTo(ex, s, o).books && Live(AddTo(ex, s, o).books[t], id)
    ensures var index := AddTo(ex, s, o).index; id in index && index[id] == t
  {
    hide Live, Add, MatchBook, MatchTrades;
    if t == s {
      AddedLive(BookOf(ex, s), o, id);
      Nothing(id);
    }
  }

  lemma AddedLive(b: Book, o: Order, id: nat)
    ensures Live(Add(b, o), id) <==> Live(b, id) || id == o.orderId
  {
    AddLive(b, o, id);
  }

  /** Adding an order overwrites the index entry of its id. The index keeps covering
      every live order exactly when no other symbol's book holds that id. */
  lemma AddCoversIff(ex: ExState, s: Symbol, o: Order)
    requires IndexCovers(ex)
    ensures IndexCovers(AddTo(ex, s, o)) <==> forall t :: t in ex.books && t != s ==> !Live(ex.books[t], o.orderId)
  {
    hide Live, Add;
    var ex' := AddTo(ex, s, o);
    if t :| t in ex.books && t != s && Live(ex.books[t], o.orderId) {
      assert ex'.books[t] == ex.books[t] && ex'.index[o.orderId] == s;
    } else {
      AddKeepsCover(ex, s, o);
    }
  }

  ghost predicate BooksWellFormed(ex: ExState) {
    forall s :: s in ex.books ==> WellFormed(ex.books[s])
  }

  lemma AddedWellFormed(b: Book, o: Order)
    requires WellFormed(b)
    ensures WellFormed(Add(b, o)) <==> !Live(b, o.orderId)
  {
    hide Live;
    InsertWellFormed(b, o);
  }

  /** Both the books and the routing index survive an added order exactly when no
      book at all holds its id. */
  lemma AddSafeIff(ex: ExState, s: Symbol, o: Order)
    requires IndexCovers(ex) && BooksWellFormed(ex)
    ensures IndexCovers(AddTo(ex, s, o)) && BooksWellFormed(AddTo(ex, s, o)) <==> Unused(ex, o.orderId)
  {
    hide Live, Add, WellFormed, IndexCovers, MatchBook, MatchTrades;
    AddCoversIff(ex, s, o);
    EmptyGood();
    GoodWellFormed(EMPTY_BOOK);
    Nothing(o.orderId);
    AddedWellFormed(BookOf(ex, s), o);
    assert AddTo(ex, s, o).books[s] == Add(BookOf(ex, s), o);
  }

  /** So an id used under two symbols defeats the index while both books are well
      formed: the first order rests on, out of reach of every CANCEL and MODIFY. */
  lemma SecondSymbolHides(s: Symbol, o: Order, t: Symbol, o': Order, newQty: int, newPrice: Price, timestamp: int)
    requires s != t && o.orderId == o'.orderId
    ensures var ex := AddTo(AddTo(EMPTY_EXCHANGE, s, o), t, o');
            && WellFormed(BookOf(ex, s)) && WellFormed(BookOf(ex, t)) && Live(BookOf(ex, s), o.orderId)
            && !IndexCovers(ex)
            && BookOf(CancelBy(ex, o.orderId), s) == BookOf(ex, s)
            && ModifyBy(ex, o.orderId, s, newQty, newPrice, timestamp) == ex
  {
    hide Live, Add, CancelIn, ModifyIn, WellFormed, IndexCovers;
    var first := AddTo(EMPTY_EXCHANGE, s, o);
    assert first == ExState(map[s := Add(EMPTY_BOOK, o)], map[o.orderId := s]);
    EmptyIndex();
    AddKeepsCover(EMPTY_EXCHANGE, s, o);
    AddedLive(EMPTY_BOOK, o, o.orderId);
    AddCoversIff(first, t, o');
    assert s in first.books && Live(first.books[s], o'.orderId);
    AloneWellFormed(o);
    AloneWellFormed(o');
  }

  lemma AloneWellFormed(o: Order)
    ensures WellFormed(Add(EMPTY_BOOK, o))
  {
    InsertWellFormed(EMPTY_BOOK, o);
  }

  /** Dispatching keeps the index covering every live order, if a NEW brings an id
      that no book holds. */
  lemma StepIndex(ex: ExState, c: Command)
    requires IndexCovers(ex) && BooksGood(ex) && (c.New? ==> Unused(ex, c.orderId))
    ensures IndexCovers(Dispatch(ex, c)) && BooksGood(Dispatch(ex, c))
    ensures forall id :: id in Dispatch(ex, c).index ==> id in ex.index || (c.New? && id == c.orderId)
  {
    hide Live, CancelIn, ModifyIn, Add, MatchBook, MatchTrades, Good, Unused;
    var ex' := Dispatch(ex, c);
    EmptyGood();
    forall s, id | s in ex'.books && Live(ex'.books[s], id) ensures id in ex'.index && ex'.index[id] == s {
      StepKeepsCover(ex, c, s, id);
    }
    forall s | s in ex'.books ensures Good(ex'.books[s]) {
      StepRoutes(ex, c, s);
      NewNotLive(ex, c, s);
      StepGood(BookOf(ex, s), c);
    }
  }

  lemma EmptyGood()
    ensures Good(EMPTY_BOOK)
  {
  }

  lemma NewNotLive(ex: ExState, c: Command, s: Symbol)
    requires c.New? ==> Unused(ex, c.orderId)
    ensures c.New? ==> !Live(BookOf(ex, s), c.orderId)
  {
  }

  lemma StepKeepsCover(ex: ExState, c: Command, s: Symbol, id: nat)
    requires IndexCovers(ex) && BooksGood(ex) && (c.New? ==> Unused(ex, c.orderId))
    requires Live(BookOf(Dispatch(ex, c), s), id)
    ensures var ex' := Dispatch(ex, c); id in ex'.index && ex'.index[id] == s
  {
    hide Live, CancelIn, ModifyIn, Add, MatchBook, MatchTrades, Good;
    EmptyGood();
    Nothing(id);
    StepRoutes(ex, c, s);
    NewNotLive(ex, c, s);
    StepGood(BookOf(ex, s), c);
    if c.Cancel? {
      GoodWellFormed(BookOf(ex, s));
      CancelLive(BookOf(ex, s), c.cancelId, id);
    }
  }

  lemma GoodWellFormed(b: Book)
    requires Good(b)
    ensures WellFormed(b)
  {
  }

  // ----- whole runs

  lemma SubmittedGrows(cs: seq<Command>, id: nat)
    requires cs != []
    ensures Submitted(cs, id) <==> Submitted(cs[..|cs| - 1], id) || (cs[|cs| - 1].New? && cs[|cs| - 1].orderId == id)
  {
    var before := cs[..|cs| - 1];
    if Submitted(before, id) {
      var i :| 0 <= i < |before| && before[i].New? && before[i].orderId == id;
      assert cs[i].New? && cs[i].orderId == id;
    }
    if Submitted(cs, id) && !(cs[|cs| - 1].New? && cs[|cs| - 1].orderId == id) {
      var i :| 0 <= i < |cs| && cs[i].New? && cs[i].orderId == id;
      assert before[i].New? && before[i].orderId == id;
    }
  }

  /** In every run the index covers the live orders and names only submitted ids. */
  lemma {:induction false} RunIndex(cs: seq<Command>)
    requires FreshIds(cs)
    ensures IndexCovers(ExRun(cs)) && BooksGood(ExRun(cs))
    ensures forall id :: id in ExRun(cs).index ==> Submitted(cs, id)
  {
    hide IndexCovers, BooksGood, Dispatch, Submitted, Unused;
    if cs == [] {
      EmptyIndex();
    } else {
      var before, c := cs[..|cs| - 1], cs[|cs| - 1];
      NewIsFresh(cs);
      RunIndex(before);
      if c.New? {
        UnindexedUnused(ExRun(before), c.orderId);
      }
      StepIndex(ExRun(before), c);
      forall id | id in ExRun(cs).index ensures Submitted(cs, id) {
        SubmittedGrows(cs, id);
      }
    }
  }

  lemma EmptyIndex()
    ensures IndexCovers(EMPTY_EXCHANGE) && BooksGood(EMPTY_EXCHANGE)
  {
  }

  /** Main result: routing by the index agrees with broadcasting. */
  lemma {:induction false} RoutingIsBroadcast(cs: seq<Command>, s: Symbol)
    requires FreshIds(cs)
    ensures BookOf(ExRun(cs), s) == BookRun(Select(s, cs))
  {
    hide IndexCovers, BooksGood, Dispatch, BookStep, FreshIds, Submitted;
    if cs != [] {
      var before, c := cs[..|cs| - 1], cs[|cs| - 1];
      NewIsFresh(cs);
      RunIndex(before);
      RoutingIsBroadcast(before, s);
      StepRoutes(ExRun(before), c, s);
      if Concerns(s, c) {
        assert Select(s, cs) == Select(s, before) + [c];
        assert Select(s, cs)[..|Select(s, cs)| - 1] == Select(s, before);
      } else {
        assert Select(s, cs) == Select(s, before);
      }
    }
  }

  /** The part of the exchange's trade output that belongs to one symbol. */
  function TapeOf(s: Symbol, cs: seq<Command>): seq<Trade> {
    if cs == [] then []
    else
      var before, c := cs[..|cs| - 1], cs[|cs| - 1];
      TapeOf(s, before) + (if Matches(c) && SymbolOf(c) == s then DispatchTrades(ExRun(before), c) else [])
  }

  lemma RunTradesAppend(cs: seq<Command>, c: Command)
    ensures RunTrades(cs + [c]) == RunTrades(cs) + StepTrades(BookRun(cs), c)
  {
    assert (cs + [c])[..|cs|] == cs;
  }

  /** A symbol's trades, too, are those of the lone book. */
  lemma {:induction false} TapeIsBroadcast(cs: seq<Command>, s: Symbol)
    requires FreshIds(cs)
    ensures TapeOf(s, cs) == RunTrades(Select(s, cs))
  {
    hide IndexCovers, BooksGood, Dispatch, DispatchTrades, FreshIds, Submitted, BookRun, ExRun, RunTrades;
    if cs == [] {
      RunTradesNone();
    } else {
      var before, c := cs[..|cs| - 1], cs[|cs| - 1];
      NewIsFresh(cs);
      RunIndex(before);
      RoutingIsBroadcast(before, s);
      TapeIsBroadcast(before, s);
      StepRoutes(ExRun(before), c, s);
      var tape := TapeOf(s, before);
      assert tape + [] == tape;
      if Concerns(s, c) {
        RunTradesAppend(Select(s, before), c);
      } else {
        assert Select(s, cs) == Select(s, before);
      }
    }
  }

  lemma RunTradesNone()
    ensures RunTrades([]) == []
  {
  }

  /** The dispatcher always meets the precondition of `addOrder`: the id of the
      next NEW is in no book and not even in the index. */
  lemma NextIsDispatchable(cs: seq<Command>, c: Command)
    requires FreshIds(cs + [c])
    ensures Dispatchable(ExRun(cs), c)
    ensures c.New? ==> c.orderId !in ExRun(cs).index && forall s :: !Live(BookOf(ExRun(cs), s), c.orderId)
  {
    hide IndexCovers, BooksGood, Live, Submitted, Unused;
    assert (cs + [c])[..|cs|] == cs;
    NewIsFresh(cs + [c]);
    RunIndex(cs);
    if c.New? {
      UnindexedUnused(ExRun(cs), c.orderId);
    }
    forall s ensures c.New? ==> !Live(BookOf(ExRun(cs), s), c.orderId) {
      NewNotLive(ExRun(cs), c, s);
    }
  }

  // ----- what the books of the exchange inherit

  lemma {:induction false} SelectWithin(s: Symbol, cs: seq<Command>)
    ensures forall i :: 0 <= i < |Select(s, cs)| ==> Select(s, cs)[i] in cs
  {
    if cs != [] {
      SelectWithin(s, cs[..|cs| - 1]);
      assert cs == cs[..|cs| - 1] + [cs[|cs| - 1]];
    }
  }

  lemma {:induction false} SelectFresh(s: Symbol, cs: seq<Command>)
    requires FreshIds(cs)
    ensures FreshIds(Select(s, cs))
  {
    if cs != [] {
      SelectFresh(s, cs[..|cs| - 1]);
      SelectWithin(s, cs[..|cs| - 1]);
    }
  }

  lemma {:induction false} SelectStamps(s: Symbol, cs: seq<Command>)
    requires StampsNeverDecrease(cs)
    ensures StampsNeverDecrease(Select(s, cs))
  {
    if cs != [] {
      SelectStamps(s, cs[..|cs| - 1]);
      SelectWithin(s, cs[..|cs| - 1]);
    }
  }

  /** After every dispatched command, in every symbol: the book is well formed and
      uncrossed, its counts are bounded, its statistics summarise its own trades,
      and on both sides the ledger balances. */
  lemma ExchangeKeeps(cs: seq<Command>, s: Symbol, side: Side)
    requires FreshIds(cs)
    ensures var b := BookOf(ExRun(cs), s);
            && Good(b) && Amortised(b)
            && b.stats == SymbolStats(NewCount(Select(s, cs)), |TapeOf(s, cs)|, Volume(TapeOf(s, cs)))
            && SubmittedQty(side, Select(s, cs)) + NetModified(side, Select(s, cs))
            == Qty(SideOf(b, side)) + Cancelled(side, Select(s, cs)) + b.stats.totalVolume
  {
    hide Good, Amortised, FreshIds, SubmittedQty, NetModified, Cancelled;
    RoutingIsBroadcast(cs, s);
    SelectFresh(s, cs);
    RunGood(Select(s, cs));
    RunAmortised(Select(s, cs));
    TapeIsBroadcast(cs, s);
    StatsSummarise(Select(s, cs));
    RunLedger(side, Select(s, cs));
  }

  /** With stamps that never decrease, list order is time order in every symbol. */
  lemma ExchangeInTime(cs: seq<Command>, s: Symbol, bound: int)
    requires FreshIds(cs) && StampsNeverDecrease(cs)
    requires forall i :: 0 <= i < |cs| && Matches(cs[i]) ==> Stamp(cs[i]) <= bound
    ensures InTime(BookOf(ExRun(cs), s), bound)
  {
    hide FreshIds, StampsNeverDecrease, InTime;
    RoutingIsBroadcast(cs, s);
    SelectFresh(s, cs);
    SelectStamps(s, cs);
    SelectWithin(s, cs);
    RunInTime(Select(s, cs), bound);
  }

  /** In every symbol no resting order is stamped later than the latest command. */
  lemma ExchangeStampedBy(cs: seq<Command>, s: Symbol, bound: int)
    requires FreshIds(cs)
    requires forall i :: 0 <= i < |cs| && Matches(cs[i]) ==> Stamp(cs[i]) <= bound
    ensures BookStampedBy(BookOf(ExRun(cs), s), bound)
  {
    hide FreshIds, BookStampedBy;
    RoutingIsBroadcast(cs, s);
    SelectWithin(s, cs);
    RunStampedBy(Select(s, cs), bound);
  }
}
