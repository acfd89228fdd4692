/** The values that flow through the exchange: orders, commands, trades and
    per-symbol statistics (order.h, and the small structs of orderbook.h).
    Prices are reals: the program's doubles without NaN and without rounding. */
module Orders {
  type Price = real
  type Symbol = string

  datatype Side = Buy | Sell

  datatype Order = Order(orderId: nat, side: Side, price: Price, quantity: int, timestamp: int)

  datatype SymbolStats = SymbolStats(totalOrders: nat, totalTrades: nat, totalVolume: int)

  /** One line of the program's trade output. */
  datatype Trade = Trade(price: Price, quantity: int, buyer: nat, seller: nat)

  /** The tagged union carried by the queue, without its latency stamps. */
  datatype Command =
    | New(orderId: nat, side: Side, price: Price, quantity: int, timestamp: int, symbol: Symbol)
    | Cancel(cancelId: nat)
    | Modify(modifyId: nat, modifySymbol: Symbol, newQuantity: int, newPrice: Price, modifyTime: int)
    | Stats
    | BookQuery(bookSymbol: Symbol)

  function Opposite(side: Side): Side {
    if side.Buy? then Sell else Buy
  }

  /** On `side`, price `p` has strictly more priority than price `q`:
      the comparators of the two price maps. */
  predicate Better(side: Side, p: Price, q: Price) {
    if side.Buy? then p > q else p < q
  }

  /** An order on `side` limited to `limit` can trade against a resting price `p`. */
  predicate Crosses(side: Side, limit: Price, p: Price) {
    if side.Buy? then limit >= p else limit <= p
  }

  function Min(a: int, b: int): int {
    if a <= b then a else b
  }
}
