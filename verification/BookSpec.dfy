/** The meaning of one order book. Each side is a single sequence in priority
    order: best price first and, within a price, first come first. Because the
    program never keeps an empty price level, this flat sequence determines the
    program's map of FIFO lists. */
module BookSpec {
  import opened Orders

  datatype Book = Book(bids: seq<Order>, asks: seq<Order>, stats: SymbolStats)

  const EMPTY_BOOK := Book([], [], SymbolStats(0, 0, 0))

  function SideOf(b: Book, side: Side): seq<Order> {
    if side.Buy? then b.bids else b.asks
  }

  function WithSide(b: Book, side: Side, s: seq<Order>): Book {
    if side.Buy? then b.(bids := s) else b.(asks := s)
  }

  // ----- what a well-formed book is

  ghost predicate Sorted(side: Side, s: seq<Order>) {
    forall i, j :: 0 <= i < j < |s| ==> !Better(side, s[j].price, s[i].price)
  }

  ghost predicate OnSide(side: Side, s: seq<Order>) {
    forall i :: 0 <= i < |s| ==> s[i].side == side
  }

  ghost predicate DistinctIds(s: seq<Order>) {
    forall i, j :: 0 <= i < j < |s| ==> s[i].orderId != s[j].orderId
  }

  ghost predicate DisjointIds(s: seq<Order>, t: seq<Order>) {
    forall i, j :: 0 <= i < |s| && 0 <= j < |t| ==> s[i].orderId != t[j].orderId
  }

  ghost predicate Positive(s: seq<Order>) {
    forall i :: 0 <= i < |s| ==> s[i].quantity > 0
  }

  ghost predicate WellFormed(b: Book) {
    && Sorted(Buy, b.bids) && Sorted(Sell, b.asks)
    && OnSide(Buy, b.bids) && OnSide(Sell, b.asks)
    && DistinctIds(b.bids) && DistinctIds(b.asks) && DisjointIds(b.bids, b.asks)
  }

  predicate Uncrossed(bids: seq<Order>, asks: seq<Order>) {
    bids == [] || asks == [] || bids[0].price < asks[0].price
  }

  // ----- positions

  /** Where an order priced `p` joins the queue: behind every order that is at least as good. */
  function Slot(side: Side, s: seq<Order>, p: Price): (k: nat)
    ensures k <= |s|
    ensures forall j :: 0 <= j < k ==> !Better(side, p, s[j].price)
    ensures k < |s| ==> Better(side, p, s[k].price)
  {
    if s == [] || Better(side, p, s[0].price) then 0 else 1 + Slot(side, s[1..], p)
  }

  /** The first position of an order id, or the length when it is absent. */
  function Pos(s: seq<Order>, id: nat): (k: nat)
    ensures k <= |s|
    ensures forall j :: 0 <= j < k ==> s[j].orderId != id
    ensures k < |s| ==> s[k].orderId == id
  {
    if s == [] || s[0].orderId == id then 0 else 1 + Pos(s[1..], id)
  }

  predicate Has(s: seq<Order>, id: nat) {
    Pos(s, id) < |s|
  }

  predicate Live(b: Book, id: nat) {
    Has(b.bids, id) || Has(b.asks, id)
  }

  function Lookup(b: Book, id: nat): (o: Order)
    requires Live(b, id)
    ensures o.orderId == id
  {
    if Has(b.bids, id) then b.bids[Pos(b.bids, id)] else b.asks[Pos(b.asks, id)]
  }

  // ----- the operations of one side

  function Inserted(s: seq<Order>, o: Order): seq<Order> {
    var k := Slot(o.side, s, o.price);
    s[..k] + [o] + s[k..]
  }

  function Dropped<T>(s: seq<T>, k: nat): seq<T>
    requires k < |s|
  {
    s[..k] + s[k + 1..]
  }

  function Without(s: seq<Order>, id: nat): seq<Order> {
    var k := Pos(s, id);
    if k < |s| then Dropped(s, k) else s
  }

  function Resized(s: seq<Order>, id: nat, quantity: int): seq<Order> {
    var k := Pos(s, id);
    if k < |s| then s[k := s[k].(quantity := quantity)] else s
  }

  /** `q` units leave the front order. */
  function Lessened(s: seq<Order>, q: int): seq<Order>
    requires s != []
  {
    s[0 := s[0].(quantity := s[0].quantity - q)]
  }

  /** `q` units leave the front order, which departs when nothing is left of it. */
  function FillFront(s: seq<Order>, q: int): seq<Order>
    requires s != []
  {
    if s[0].quantity == q then s[1..] else Lessened(s, q)
  }

  // ----- the operations of the book

  function Insert(b: Book, o: Order): Book {
    WithSide(b, o.side, Inserted(SideOf(b, o.side), o))
  }

  function Add(b: Book, o: Order): Book {
    Insert(b, o).(stats := b.stats.(totalOrders := b.stats.totalOrders + 1))
  }

  function CancelIn(b: Book, id: nat): Book {
    b.(bids := Without(b.bids, id), asks := Without(b.asks, id))
  }

  /** Same price and a smaller quantity: the branch that keeps time priority. */
  predicate KeepsPriority(b: Book, id: nat, newQty: int, newPrice: Price) {
    Live(b, id) && newPrice == Lookup(b, id).price && newQty < Lookup(b, id).quantity
  }

  function ModifyIn(b: Book, id: nat, newQty: int, newPrice: Price, timestamp: int): Book {
    if !Live(b, id) then b
    else if KeepsPriority(b, id, newQty, newPrice) then
      b.(bids := Resized(b.bids, id, newQty), asks := Resized(b.asks, id, newQty))
    else
      Insert(CancelIn(b, id), Order(id, Lookup(b, id).side, newPrice, newQty, timestamp))
  }

  // ----- matching

  function TradeOf(bid: Order, ask: Order): Trade {
    Trade(if bid.timestamp <= ask.timestamp then bid.price else ask.price,
          Min(bid.quantity, ask.quantity), bid.orderId, ask.orderId)
  }

  datatype MatchResult = MatchResult(bids: seq<Order>, asks: seq<Order>, trades: seq<Trade>)

  function MatchSides(bids: seq<Order>, asks: seq<Order>): MatchResult
    decreases |bids| + |asks|
  {
    if Uncrossed(bids, asks) then MatchResult(bids, asks, [])
    else
      var t := TradeOf(bids[0], asks[0]);
      var r := MatchSides(FillFront(bids, t.quantity), FillFront(asks, t.quantity));
      r.(trades := [t] + r.trades)
  }

  function Volume(trades: seq<Trade>): int {
    if trades == [] then 0 else trades[0].quantity + Volume(trades[1..])
  }

  /** The statistics after `count` more trades of `volume` units together. */
  function Tally(stats: SymbolStats, count: nat, volume: int): SymbolStats {
    SymbolStats(stats.totalOrders, stats.totalTrades + count, stats.totalVolume + volume)
  }

  function MatchTrades(b: Book): seq<Trade> {
    MatchSides(b.bids, b.asks).trades
  }

  function MatchBook(b: Book): Book {
    var r := MatchSides(b.bids, b.asks);
    Book(r.bids, r.asks, Tally(b.stats, |r.trades|, Volume(r.trades)))
  }

  // ----- the invariant of the view

  lemma SlotIs(side: Side, s: seq<Order>, p: Price, k: nat)
    requires k <= |s|
    requires forall j :: 0 <= j < k ==> !Better(side, p, s[j].price)
    requires forall j :: k <= j < |s| ==> Better(side, p, s[j].price)
    ensures Slot(side, s, p) == k
  {
    var j := Slot(side, s, p);
    assert k < |s| ==> Better(side, p, s[k].price);
    assert j < |s| ==> Better(side, p, s[j].price);
  }

  lemma PosIs(s: seq<Order>, k: nat)
    requires k < |s| && DistinctIds(s)
    ensures Pos(s, s[k].orderId) == k
  {
  }

  /** A priority position splits a sorted side into the orders that keep precedence and the rest. */
  lemma SlotSplits(side: Side, s: seq<Order>, p: Price, j: nat)
    requires Sorted(side, s) && j < |s|
    ensures Better(side, p, s[j].price) <==> Slot(side, s, p) <= j
  {
  }

  lemma InsertedSorted(s: seq<Order>, o: Order)
    requires Sorted(o.side, s)
    ensures Sorted(o.side, Inserted(s, o))
  {
    var k, s' := Slot(o.side, s, o.price), Inserted(s, o);
    forall i, j | 0 <= i < j < |s'| ensures !Better(o.side, s'[j].price, s'[i].price) {
      if i == k {
        SlotSplits(o.side, s, o.price, j - 1);
      } else if j == k {
        SlotSplits(o.side, s, o.price, i);
      }
    }
  }

  /** Ids stay distinct exactly when the newcomer's id is new. */
  lemma InsertedDistinct(s: seq<Order>, o: Order)
    requires DistinctIds(s)
    ensures DistinctIds(Inserted(s, o)) <==> !Has(s, o.orderId)
  {
    var k, s' := Slot(o.side, s, o.price), Inserted(s, o);
    var m := Pos(s, o.orderId);
    if m < |s| {
      assert s'[k].orderId == o.orderId;
      assert m < k ==> s'[m].orderId == o.orderId;
      assert k <= m ==> s'[m + 1].orderId == o.orderId;
    }
  }

  lemma InsertedDisjoint(s: seq<Order>, o: Order, t: seq<Order>)
    requires DisjointIds(s, t)
    ensures DisjointIds(Inserted(s, o), t) <==> !Has(t, o.orderId)
  {
    var k, s', m := Slot(o.side, s, o.price), Inserted(s, o), Pos(t, o.orderId);
    assert s'[k] == o;
    if m == |t| {
      forall i, j | 0 <= i < |s'| && 0 <= j < |t| ensures s'[i].orderId != t[j].orderId {
        assert i < k ==> s'[i] == s[i];
        assert i > k ==> s'[i] == s[i - 1];
      }
    }
  }

  lemma DisjointSym(s: seq<Order>, t: seq<Order>)
    ensures DisjointIds(s, t) <==> DisjointIds(t, s)
  {
  }

  lemma InsertedOnSide(s: seq<Order>, o: Order)
    requires OnSide(o.side, s)
    ensures OnSide(o.side, Inserted(s, o))
  {
  }

  lemma InsertWellFormed(b: Book, o: Order)
    requires WellFormed(b)
    ensures WellFormed(Insert(b, o)) <==> !Live(b, o.orderId)
  {
    hide Inserted, Sorted, OnSide, DistinctIds, DisjointIds, Has;
    var s, t := SideOf(b, o.side), SideOf(b, Opposite(o.side));
    DisjointSym(b.bids, b.asks);
    InsertedSorted(s, o);
    InsertedDistinct(s, o);
    InsertedDisjoint(s, o, t);
    DisjointSym(Inserted(s, o), t);
    InsertedOnSide(s, o);
  }

  lemma InsertedHas(s: seq<Order>, o: Order, id: nat)
    ensures Has(Inserted(s, o), id) <==> Has(s, id) || id == o.orderId
  {
    var k, s' := Slot(o.side, s, o.price), Inserted(s, o);
    assert s'[k] == o;
    if Has(s, id) {
      var m := Pos(s, id);
      assert s'[if m < k then m else m + 1].orderId == id;
    }
    if Has(s', id) {
      var m := Pos(s', id);
      assert m < k ==> s[m].orderId == id;
      assert k < m ==> s[m - 1].orderId == id;
    }
  }

  lemma WithoutHas(s: seq<Order>, gone: nat, id: nat)
    requires DistinctIds(s)
    ensures Has(Without(s, gone), id) <==> Has(s, id) && id != gone
  {
    var k, s' := Pos(s, gone), Without(s, gone);
    if k < |s| {
      if Has(s, id) && id != gone {
        var m := Pos(s, id);
        assert s'[if m < k then m else m - 1].orderId == id;
      }
      if Has(s', id) {
        var m := Pos(s', id);
        assert s[if m < k then m else m + 1].orderId == id;
      }
    }
  }

  lemma WithoutInserted(s: seq<Order>, o: Order)
    requires !Has(s, o.orderId)
    ensures Without(Inserted(s, o), o.orderId) == s
    ensures Pos(Inserted(s, o), o.orderId) == Slot(o.side, s, o.price)
  {
    var k := Slot(o.side, s, o.price);
    assert Inserted(s, o)[k] == o;
    assert forall j :: 0 <= j < k ==> Inserted(s, o)[j] == s[j];
    assert s == s[..k] + s[k..];
  }

  /** The per-side part of the invariant, and the part that ties the sides together. */
  ghost predicate SideOk(side: Side, s: seq<Order>) {
    Sorted(side, s) && OnSide(side, s) && DistinctIds(s)
  }

  lemma DropOk(side: Side, s: seq<Order>, k: nat)
    requires SideOk(side, s) && k < |s|
    ensures SideOk(side, s[..k] + s[k + 1..])
  {
    var s' := s[..k] + s[k + 1..];
    assert forall j :: 0 <= j < |s'| ==> s'[j] == s[if j < k then j else j + 1];
  }

  lemma WithoutOk(side: Side, s: seq<Order>, id: nat)
    requires SideOk(side, s)
    ensures SideOk(side, Without(s, id))
  {
    hide Pos, SideOk;
    if Has(s, id) {
      DropOk(side, s, Pos(s, id));
    }
  }

  lemma WithoutDisjoint(s: seq<Order>, t: seq<Order>, id: nat)
    requires DisjointIds(s, t)
    ensures DisjointIds(Without(s, id), Without(t, id))
  {
    hide Pos;
    var s', t' := Without(s, id), Without(t, id);
    forall i, j | 0 <= i < |s'| && 0 <= j < |t'| ensures s'[i].orderId != t'[j].orderId {
      assert s'[i] == s[i] || s'[i] == s[i + 1];
      assert t'[j] == t[j] || t'[j] == t[j + 1];
    }
  }

  lemma WithoutWellFormed(b: Book, id: nat)
    requires WellFormed(b)
    ensures WellFormed(CancelIn(b, id))
  {
    hide Without, Sorted, OnSide, DistinctIds, DisjointIds;
    WithoutOk(Buy, b.bids, id);
    WithoutOk(Sell, b.asks, id);
    WithoutDisjoint(b.bids, b.asks, id);
  }

  /** Only the quantities differ. */
  ghost predicate SameButQuantity(s: seq<Order>, t: seq<Order>) {
    |s| == |t| && forall k :: 0 <= k < |s| ==> t[k] == s[k].(quantity := t[k].quantity)
  }

  lemma RequantifiedWellFormed(b: Book, b': Book)
    requires WellFormed(b)
    requires SameButQuantity(b.bids, b'.bids) && SameButQuantity(b.asks, b'.asks)
    ensures WellFormed(b')
  {
    assert forall k :: 0 <= k < |b.bids| ==>
      b'.bids[k].price == b.bids[k].price && b'.bids[k].orderId == b.bids[k].orderId;
    assert forall k :: 0 <= k < |b.asks| ==>
      b'.asks[k].price == b.asks[k].price && b'.asks[k].orderId == b.asks[k].orderId;
  }

  lemma SameHas(s: seq<Order>, t: seq<Order>, id: nat)
    requires SameButQuantity(s, t)
    ensures Has(t, id) <==> Has(s, id)
  {
    assert forall k :: 0 <= k < |s| ==> t[k].orderId == s[k].orderId;
  }

  /** In a well-formed book an id names one order, on one side. */
  lemma HasOnce(b: Book, id: nat)
    requires WellFormed(b)
    ensures !(Has(b.bids, id) && Has(b.asks, id))
  {
  }

  lemma CancelledIsGone(b: Book, id: nat)
    requires WellFormed(b)
    ensures !Live(CancelIn(b, id), id)
  {
    WithoutHas(b.bids, id, id);
    WithoutHas(b.asks, id, id);
  }

  lemma {:induction false} VolumeAppend(trades: seq<Trade>, t: Trade)
    ensures Volume(trades + [t]) == Volume(trades) + t.quantity
  {
    if trades != [] {
      VolumeAppend(trades[1..], t);
      assert (trades + [t])[1..] == trades[1..] + [t];
    }
  }

  /** One pass of the loop, with the trades already made. */
  lemma MatchUnfolds(bids: seq<Order>, asks: seq<Order>, before: seq<Trade>)
    requires !Uncrossed(bids, asks)
    ensures var t, r := TradeOf(bids[0], asks[0]), MatchSides(bids, asks);
            var r' := MatchSides(FillFront(bids, t.quantity), FillFront(asks, t.quantity));
            r.bids == r'.bids && r.asks == r'.asks && before + r.trades == before + [t] + r'.trades
  {
  }

  lemma TallyTwice(stats: SymbolStats, count: nat, volume: int, q: int)
    ensures Tally(Tally(stats, count, volume), 1, q) == Tally(stats, count + 1, volume + q)
  {
  }

  /** The order found under an id lies on its own side. */
  lemma LookupSide(b: Book, id: nat)
    requires WellFormed(b) && Live(b, id)
    ensures var s := SideOf(b, Lookup(b, id).side);
            Has(s, id) && Lookup(b, id) == s[Pos(s, id)] && !Has(SideOf(b, Opposite(Lookup(b, id).side)), id)
  {
  }
}
