/** The exchange as a value: a lazily filled map of books and the index from
    order ids to symbols, with the dispatcher's switch on command types. */
module ExchangeSpec {
  import opened Orders
  import opened BookSpec
  import opened BookRuns

  datatype ExState = ExState(books: map<Symbol, Book>, index: map<nat, Symbol>)

  const EMPTY_EXCHANGE := ExState(map[], map[])

  /** `books[s]`, which creates an empty book on first use. */
  function BookOf(ex: ExState, s: Symbol): Book {
    if s in ex.books then ex.books[s] else EMPTY_BOOK
  }

  function AddTo(ex: ExState, s: Symbol, o: Order): ExState {
    ExState(ex.books[s := Add(BookOf(ex, s), o)], ex.index[o.orderId := s])
  }

  function CancelBy(ex: ExState, id: nat): ExState {
    if id !in ex.index then ex
    else
      var s := ex.index[id];
      ExState(ex.books[s := CancelIn(BookOf(ex, s), id)], ex.index - {id})
  }

  function ModifyBy(ex: ExState, id: nat, s: Symbol, newQty: int, newPrice: Price, timestamp: int): ExState {
    if id !in ex.index || ex.index[id] != s then ex
    else ex.(books := ex.books[s := ModifyIn(BookOf(ex, s), id, newQty, newPrice, timestamp)])
  }

  function MatchAt(ex: ExState, s: Symbol): ExState {
    if s in ex.books then ex.(books := ex.books[s := MatchBook(ex.books[s])]) else ex
  }

  function TradesAt(ex: ExState, s: Symbol): seq<Trade> {
    if s in ex.books then MatchTrades(ex.books[s]) else []
  }

  /** Everything a command does before the matcher runs. */
  function Routed(ex: ExState, c: Command): ExState {
    match c
    case New(_, _, _, _, _, s) => AddTo(ex, s, OrderOf(c))
    case Cancel(id) => CancelBy(ex, id)
    case Modify(id, s, q, p, ts) => ModifyBy(ex, id, s, q, p, ts)
    case Stats => ex
    case BookQuery(_) => ex
  }

  function SymbolOf(c: Command): Symbol
    requires Matches(c)
  {
    if c.New? then c.symbol else c.modifySymbol
  }

  function Dispatch(ex: ExState, c: Command): ExState {
    if Matches(c) then MatchAt(Routed(ex, c), SymbolOf(c)) else Routed(ex, c)
  }

  function DispatchTrades(ex: ExState, c: Command): seq<Trade> {
    if Matches(c) then TradesAt(Routed(ex, c), SymbolOf(c)) else []
  }

  function ExRun(cs: seq<Command>): ExState {
    if cs == [] then EMPTY_EXCHANGE else Dispatch(ExRun(cs[..|cs| - 1]), cs[|cs| - 1])
  }

  function ExTrades(cs: seq<Command>): seq<Trade> {
    if cs == [] then []
    else ExTrades(cs[..|cs| - 1]) + DispatchTrades(ExRun(cs[..|cs| - 1]), cs[|cs| - 1])
  }

  /** What `Exchange::addOrder` leaves to its caller: the id of a NEW is unused in its book. */
  predicate Dispatchable(ex: ExState, c: Command) {
    c.New? ==> !Live(BookOf(ex, c.symbol), c.orderId)
  }
}
