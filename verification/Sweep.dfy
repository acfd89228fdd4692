/** The simple account of an incoming order: it sweeps the opposite side,
    best order first, and rests if anything is left. The dispatcher's
    insert-then-match discipline refines this account. */
module Sweeps {
  import opened Orders
  import opened BookSpec
  import opened Matching

  datatype SweepResult = SweepResult(rests: bool, rest: Order, opposite: seq<Order>, trades: seq<Trade>)

  predicate Reaches(o: Order, r: Order) {
    Crosses(o.side, o.price, r.price)
  }

  function TradeBetween(o: Order, r: Order): Trade {
    if o.side.Buy? then TradeOf(o, r) else TradeOf(r, o)
  }

  function Sweep(o: Order, opp: seq<Order>): SweepResult
    decreases |opp|
  {
    if opp == [] || !Reaches(o, opp[0]) then SweepResult(true, o, opp, [])
    else
      var t := TradeBetween(o, opp[0]);
      var left := o.(quantity := o.quantity - t.quantity);
      if left.quantity == 0 then SweepResult(false, left, FillFront(opp, t.quantity), [t])
      else
        var r := Sweep(left, opp[1..]);
        r.(trades := [t] + r.trades)
  }

  function Settled(own: seq<Order>, s: SweepResult): seq<Order> {
    if s.rests then Inserted(own, s.rest) else own
  }

  // ----- refinement, for every integer quantity

  lemma {:induction false} SweepBuy(o: Order, bids: seq<Order>, asks: seq<Order>)
    requires o.side.Buy? && Sorted(Buy, bids) && Sorted(Sell, asks) && Uncrossed(bids, asks)
    ensures var s := Sweep(o, asks);
            MatchSides(Inserted(bids, o), asks) == MatchResult(Settled(bids, s), s.opposite, s.trades)
    decreases |asks|
  {
    if asks != [] && Reaches(o, asks[0]) {
      var q := TradeOf(o, asks[0]).quantity;
      var left := o.(quantity := o.quantity - q);
      assert Inserted(bids, o) == [o] + bids;
      assert Inserted(bids, left) == [left] + bids;
      assert FillFront([o] + bids, q) == if left.quantity == 0 then bids else [left] + bids;
      if left.quantity != 0 {
        SweepBuy(left, bids, asks[1..]);
      }
    }
  }

  lemma {:induction false} SweepSell(o: Order, bids: seq<Order>, asks: seq<Order>)
    requires o.side.Sell? && Sorted(Buy, bids) && Sorted(Sell, asks) && Uncrossed(bids, asks)
    ensures var s := Sweep(o, bids);
            MatchSides(bids, Inserted(asks, o)) == MatchResult(s.opposite, Settled(asks, s), s.trades)
    decreases |bids|
  {
    if bids != [] && Reaches(o, bids[0]) {
      var q := TradeOf(bids[0], o).quantity;
      var left := o.(quantity := o.quantity - q);
      assert Inserted(asks, o) == [o] + asks;
      assert Inserted(asks, left) == [left] + asks;
      assert FillFront([o] + asks, q) == if left.quantity == 0 then asks else [left] + asks;
      if left.quantity != 0 {
        SweepSell(left, bids[1..], asks);
      }
    }
  }

  /** The book after an order has swept it. */
  function SweepBook(b: Book, o: Order): Book {
    var s := Sweep(o, SideOf(b, Opposite(o.side)));
    WithSide(WithSide(b, o.side, Settled(SideOf(b, o.side), s)), Opposite(o.side), s.opposite)
    .(stats := Tally(b.stats, |s.trades|, Volume(s.trades)))
  }

  function SweepTrades(b: Book, o: Order): seq<Trade> {
    Sweep(o, SideOf(b, Opposite(o.side))).trades
  }

  /** Main result: inserting into an uncrossed book and matching is one sweep. */
  lemma InsertMatchIsSweep(b: Book, o: Order)
    requires WellFormed(b) && Uncrossed(b.bids, b.asks)
    ensures MatchBook(Insert(b, o)) == SweepBook(b, o)
    ensures MatchTrades(Insert(b, o)) == SweepTrades(b, o)
  {
    if o.side.Buy? {
      SweepBuy(o, b.bids, b.asks);
    } else {
      SweepSell(o, b.bids, b.asks);
    }
  }

  lemma CancelUncrossed(b: Book, id: nat)
    requires WellFormed(b) && Uncrossed(b.bids, b.asks)
    ensures Uncrossed(CancelIn(b, id).bids, CancelIn(b, id).asks)
  {
  }

  /** A reinserting MODIFY sweeps like a newcomer, from the book without the old order. */
  lemma ModifyMatchIsSweep(b: Book, id: nat, newQty: int, newPrice: Price, timestamp: int)
    requires WellFormed(b) && Uncrossed(b.bids, b.asks)
    requires Live(b, id) && !KeepsPriority(b, id, newQty, newPrice)
    ensures var o := Order(id, Lookup(b, id).side, newPrice, newQty, timestamp);
            var b' := ModifyIn(b, id, newQty, newPrice, timestamp);
            MatchBook(b') == SweepBook(CancelIn(b, id), o) && MatchTrades(b') == SweepTrades(CancelIn(b, id), o)
  {
    WithoutWellFormed(b, id);
    CancelUncrossed(b, id);
    InsertMatchIsSweep(CancelIn(b, id), Order(id, Lookup(b, id).side, newPrice, newQty, timestamp));
  }

  /** Rejected and in-place MODIFYs leave nothing for the matcher to do. */
  lemma ModifyWithoutMatch(b: Book, id: nat, newQty: int, newPrice: Price, timestamp: int)
    requires Uncrossed(b.bids, b.asks)
    requires !Live(b, id) || KeepsPriority(b, id, newQty, newPrice)
    ensures var b' := ModifyIn(b, id, newQty, newPrice, timestamp);
            MatchBook(b') == b' && MatchTrades(b') == []
    ensures !Live(b, id) ==> MatchBook(ModifyIn(b, id, newQty, newPrice, timestamp)) == b
  {
  }

  /** After a MODIFY of an uncrossed book the matcher has work if and only if the
      order is reinserted at a price that reaches the best opposite order. */
  lemma ModifyTradesIff(b: Book, id: nat, newQty: int, newPrice: Price, timestamp: int)
    requires WellFormed(b) && Uncrossed(b.bids, b.asks)
    ensures MatchTrades(ModifyIn(b, id, newQty, newPrice, timestamp)) != [] <==>
      && Live(b, id) && (newPrice != Lookup(b, id).price || newQty >= Lookup(b, id).quantity)
      && var side := Lookup(b, id).side;
         var opp := SideOf(b, Opposite(side));
         opp != [] && Crosses(side, newPrice, opp[0].price)
  {
    hide WellFormed, Pos, Inserted, ModifyIn, MatchTrades, MatchBook;
    if Live(b, id) && !KeepsPriority(b, id, newQty, newPrice) {
      ModifyMatchIsSweep(b, id, newQty, newPrice, timestamp);
      LookupSide(b, id);
    } else {
      ModifyWithoutMatch(b, id, newQty, newPrice, timestamp);
    }
  }

  // ----- what a sweep amounts to

  /** For positive quantities: the sweep fills as much as its size and the depth within its limit allow,
      takes it from the front of the opposite queue, and rests with the balance. */
  lemma {:induction false} SweepFills(o: Order, opp: seq<Order>)
    requires Sorted(Opposite(o.side), opp) && Positive(opp) && o.quantity > 0
    ensures var s := Sweep(o, opp);
            var filled := Min(o.quantity, Depth(Opposite(o.side), opp, o.price));
            && Volume(s.trades) == filled
            && s.opposite == Consume(opp, filled)
            && (s.rests <==> filled < o.quantity)
            && (s.rests ==> s.rest == o.(quantity := o.quantity - filled))
    decreases |opp|
  {
    if opp != [] {
      DepthNonNegative(Opposite(o.side), opp[1..], o.price);
      if !Reaches(o, opp[0]) {
        NothingBeyondBest(Opposite(o.side), opp, o.price);
      } else {
        var t := TradeBetween(o, opp[0]);
        var left := o.(quantity := o.quantity - t.quantity);
        if left.quantity != 0 {
          SweepFills(left, opp[1..]);
          assert Sweep(o, opp).trades[1..] == Sweep(left, opp[1..]).trades;
        }
      }
    }
  }

  /** The incoming order gets as far as the `i`-th order of the opposite queue: it
      reaches its price, and none of the queue's beginnings up to it uses it up. */
  ghost predicate Meets(o: Order, opp: seq<Order>, i: nat)
    requires i < |opp|
  {
    Reaches(o, opp[i]) && forall j :: 0 < j <= i ==> Qty(opp[..j]) < o.quantity
  }

  /** For every integer quantity: the `i`-th trade of a sweep is with the `i`-th order
      of the opposite queue, for what is left of the incoming order or that order's
      whole quantity, and it happens exactly when the incoming order gets that far. */
  lemma {:induction false} SweepMeets(o: Order, opp: seq<Order>, i: nat)
    requires Sorted(Opposite(o.side), opp)
    ensures var trades := Sweep(o, opp).trades;
            && (i < |trades| <==> i < |opp| && Meets(o, opp, i))
            && (i < |trades| ==>
                  && trades[i] == TradeBetween(o.(quantity := o.quantity - Qty(opp[..i])), opp[i])
                  && trades[i].quantity == Min(o.quantity - Qty(opp[..i]), opp[i].quantity))
    decreases |opp|
  {
    if opp != [] && Reaches(o, opp[0]) && i > 0 {
      var t := TradeBetween(o, opp[0]);
      var left := o.(quantity := o.quantity - t.quantity);
      if i < |opp| {
        MeetsNext(o, opp, i);
      }
      if left.quantity != 0 {
        SweepMeets(left, opp[1..], i - 1);
      }
    }
  }

  lemma MeetsNext(o: Order, opp: seq<Order>, i: nat)
    requires 0 < i < |opp|
    ensures var left := o.(quantity := o.quantity - opp[0].quantity);
            Meets(o, opp, i) <==> opp[0].quantity < o.quantity && Meets(left, opp[1..], i - 1)
    ensures Qty(opp[..i]) == opp[0].quantity + Qty(opp[1..][..i - 1])
  {
    forall j | 0 < j <= i ensures Qty(opp[..j]) == opp[0].quantity + Qty(opp[1..][..j - 1]) {
      assert opp[..j][1..] == opp[1..][..j - 1];
    }
    var left := o.(quantity := o.quantity - opp[0].quantity);
    assert Qty(opp[1..][..0]) == 0;
    if opp[0].quantity < o.quantity && Meets(left, opp[1..], i - 1) {
      forall j | 0 < j <= i ensures Qty(opp[..j]) < o.quantity {
        assert 0 < j - 1 ==> Qty(opp[1..][..j - 1]) < left.quantity;
      }
    }
    if Meets(o, opp, i) {
      assert Qty(opp[..1]) < o.quantity;
      forall j | 0 < j <= i - 1 ensures Qty(opp[1..][..j]) < left.quantity {
        assert Qty(opp[..j + 1]) < o.quantity;
      }
    }
  }

  /** With positive quantities the trades are positive and no larger than the orders met. */
  lemma SweepFillBounds(o: Order, opp: seq<Order>, i: nat)
    requires Sorted(Opposite(o.side), opp) && Positive(opp) && o.quantity > 0
    ensures var trades := Sweep(o, opp).trades;
            i < |trades| ==> i < |opp| && 0 < trades[i].quantity <= opp[i].quantity
  {
    SweepMeets(o, opp, i);
  }

  // ----- prices

  /** The stamps, or equal prices, make a trade with resting order `r` happen at `r`'s price. */
  predicate PaysResting(o: Order, r: Order) {
    || o.price == r.price
    || (if o.side.Buy? then r.timestamp < o.timestamp else r.timestamp <= o.timestamp)
  }

  /** Exactly when every fill of a sweep is at the resting order's price, for every
      integer quantity. */
  lemma RestingPriceIff(o: Order, opp: seq<Order>)
    requires Sorted(Opposite(o.side), opp)
    ensures var trades := Sweep(o, opp).trades;
            && |trades| <= |opp|
            && ((forall i :: 0 <= i < |trades| ==> trades[i].price == opp[i].price)
                <==> (forall i :: 0 <= i < |opp| && Meets(o, opp, i) ==> PaysResting(o, opp[i])))
  {
    hide Meets, Sweep, Sorted, Qty;
    var trades := Sweep(o, opp).trades;
    SweepMeets(o, opp, |opp|);
    forall i | 0 <= i < |opp|
      ensures i < |trades| <==> Meets(o, opp, i)
      ensures i < |trades| ==> (trades[i].price == opp[i].price <==> PaysResting(o, opp[i]))
    {
      SweepMeets(o, opp, i);
    }
  }

  /** With a strictly later stamp every fill is at the resting price, and the
      fill prices only get worse for the incoming order as it sweeps. */
  lemma LaterSweepsAtRestingPrices(o: Order, opp: seq<Order>)
    requires Sorted(Opposite(o.side), opp)
    requires forall i :: 0 <= i < |opp| ==> opp[i].timestamp < o.timestamp
    ensures var trades := Sweep(o, opp).trades;
            && |trades| <= |opp|
            && (forall i :: 0 <= i < |trades| ==> trades[i].price == opp[i].price)
            && (forall i, j :: 0 <= i < j < |trades| ==>
                  !Better(Opposite(o.side), trades[j].price, trades[i].price))
  {
    RestingPriceIff(o, opp);
  }

  function Cost(trades: seq<Trade>): real {
    if trades == [] then 0.0 else trades[0].price * (trades[0].quantity as real) + Cost(trades[1..])
  }

  /** The total cost of some trades is no worse than all of them at the limit. */
  ghost predicate CostRespects(side: Side, limit: Price, trades: seq<Trade>) {
    if side.Buy? then Cost(trades) <= limit * (Volume(trades) as real)
    else limit * (Volume(trades) as real) <= Cost(trades)
  }

  lemma {:induction false} CostBounds(side: Side, limit: Price, trades: seq<Trade>)
    requires forall i :: 0 <= i < |trades| ==> 0 < trades[i].quantity && Crosses(side, limit, trades[i].price)
    ensures CostRespects(side, limit, trades)
  {
    if trades == [] {
      assert limit * 0.0 == 0.0;
    } else {
      CostBounds(side, limit, trades[1..]);
      OneMore(trades[0].price, limit, trades[0].quantity, Cost(trades[1..]), Volume(trades[1..]));
    }
  }

  lemma OneMore(p: Price, limit: Price, q: int, cost: real, volume: int)
    requires 0 < q
    ensures p <= limit && cost <= limit * (volume as real) ==> p * (q as real) + cost <= limit * ((q + volume) as real)
    ensures p >= limit && cost >= limit * (volume as real) ==> p * (q as real) + cost >= limit * ((q + volume) as real)
  {
    assert limit * ((q + volume) as real) == limit * (q as real) + limit * (volume as real);
    assert (limit - p) * (q as real) == limit * (q as real) - p * (q as real);
  }

  lemma FillsWithinLimit(o: Order, opp: seq<Order>)
    requires Sorted(Opposite(o.side), opp) && Positive(opp) && o.quantity > 0
    ensures forall i :: 0 <= i < |Sweep(o, opp).trades| ==>
              0 < Sweep(o, opp).trades[i].quantity && Crosses(o.side, o.price, Sweep(o, opp).trades[i].price)
  {
    var trades := Sweep(o, opp).trades;
    forall i | 0 <= i < |trades| ensures 0 < trades[i].quantity && Crosses(o.side, o.price, trades[i].price) {
      SweepMeets(o, opp, i);
      SweepFillBounds(o, opp, i);
    }
  }

  /** Whatever the stamps, a buyer never pays and a seller never receives worse
      than its limit on the filled quantity. */
  lemma CostWithinLimit(o: Order, opp: seq<Order>)
    requires Sorted(Opposite(o.side), opp) && Positive(opp) && o.quantity > 0
    ensures CostRespects(o.side, o.price, Sweep(o, opp).trades)
  {
    FillsWithinLimit(o, opp);
    CostBounds(o.side, o.price, Sweep(o, opp).trades);
  }

  // ----- quantities that nobody validates

  /** An unvalidated quantity can go wrong in two ways, and this is exactly when:
      a trade for nothing or less is printed just when a non-positive order finds
      someone to trade with, and a non-positive order rests just when it does not. */
  lemma PositivityIff(b: Book, o: Order)
    requires WellFormed(b) && Uncrossed(b.bids, b.asks) && Positive(b.bids) && Positive(b.asks)
    ensures var opp := SideOf(b, Opposite(o.side));
            var meets := opp != [] && Reaches(o, opp[0]);
            var b' := MatchBook(Insert(b, o));
            var trades := MatchTrades(Insert(b, o));
            && ((forall i :: 0 <= i < |trades| ==> trades[i].quantity > 0) <==> o.quantity > 0 || !meets)
            && (Positive(b'.bids) && Positive(b'.asks) <==> o.quantity > 0 || meets)
  {
    hide OnSide, DistinctIds, DisjointIds, Consume, Depth, Volume, MatchBook, MatchTrades, Insert, Meets;
    InsertMatchIsSweep(b, o);
    var own, opp := SideOf(b, o.side), SideOf(b, Opposite(o.side));
    var s := Sweep(o, opp);
    if o.quantity > 0 {
      SweepFills(o, opp);
      forall i | 0 <= i < |s.trades| ensures s.trades[i].quantity > 0 {
        SweepFillBounds(o, opp, i);
      }
      ConsumePositive(opp, Volume(s.trades));
      if s.rests {
        InsertedPositive(own, s.rest);
      }
    } else if opp != [] && Reaches(o, opp[0]) {
      assert s.trades[0].quantity == o.quantity;
    } else {
      var k := Slot(o.side, own, o.price);
      assert Inserted(own, o)[k] == o;
    }
  }

  lemma ConsumePositive(s: seq<Order>, v: int)
    requires Positive(s)
    ensures Positive(Consume(s, v))
  {
  }

  lemma InsertedPositive(s: seq<Order>, o: Order)
    requires Positive(s) && o.quantity > 0
    ensures Positive(Inserted(s, o))
  {
  }

  /** The in-place branch checks nothing either: it leaves a positive book
      exactly when the new quantity is positive. */
  lemma InPlacePositivityIff(b: Book, id: nat, newQty: int, newPrice: Price, timestamp: int)
    requires WellFormed(b) && Positive(b.bids) && Positive(b.asks) && KeepsPriority(b, id, newQty, newPrice)
    ensures var b' := ModifyIn(b, id, newQty, newPrice, timestamp);
            Positive(b'.bids) && Positive(b'.asks) <==> newQty > 0
  {
    LookupSide(b, id);
    var side := Lookup(b, id).side;
    var t := SideOf(ModifyIn(b, id, newQty, newPrice, timestamp), side);
    assert t[Pos(SideOf(b, side), id)].quantity == newQty;
  }
}
