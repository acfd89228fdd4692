/** The order book as the program keeps it: two price maps of lists of heap
    nodes, an index from order ids to list iterators, and running statistics.
    Every method is proved against the flat specification in BookSpec. */
module OrderBooks {
  import opened Orders
  import opened BookSpec
  import opened BookSides

  datatype OrderLocation = OrderLocation(side: Side, price: Price, it: OrderNode)

  type Index = map<nat, OrderLocation>

  /** Every order of one side is indexed with its side, its price and its own node. */
  ghost predicate Filed(side: Side, nodes: seq<OrderNode>, orders: seq<Order>, index: Index) {
    && |nodes| == |orders|
    && forall k :: 0 <= k < |orders| ==>
         && orders[k].orderId in index
         && index[orders[k].orderId] == OrderLocation(side, orders[k].price, nodes[k])
  }

  ghost predicate Covers(b: Book, index: Index) {
    forall id :: id in index ==> Live(b, id)
  }

  lemma StatsAside(b: Book, stats: SymbolStats, index: Index)
    ensures WellFormed(b.(stats := stats)) <==> WellFormed(b)
    ensures Covers(b.(stats := stats), index) <==> Covers(b, index)
  {
    assert forall id :: Live(b.(stats := stats), id) <==> Live(b, id);
  }

  lemma FiledJoin(side: Side, nodes: seq<OrderNode>, orders: seq<Order>, index: Index, o: Order, it: OrderNode)
    requires Filed(side, nodes, orders, index) && o.side == side && !Has(orders, o.orderId)
    ensures var k := Slot(side, orders, o.price);
            Filed(side, nodes[..k] + [it] + nodes[k..], Inserted(orders, o),
                  index[o.orderId := OrderLocation(side, o.price, it)])
  {
    var k, s' := Slot(side, orders, o.price), Inserted(orders, o);
    var nodes', index' := nodes[..k] + [it] + nodes[k..], index[o.orderId := OrderLocation(side, o.price, it)];
    forall j | 0 <= j < |s'|
      ensures s'[j].orderId in index' && index'[s'[j].orderId] == OrderLocation(side, s'[j].price, nodes'[j])
    {
      if j < k {
        assert s'[j] == orders[j];
      } else if k < j {
        assert s'[j] == orders[j - 1];
      }
    }
  }

  lemma FiledDrop(side: Side, nodes: seq<OrderNode>, orders: seq<Order>, index: Index, k: nat)
    requires Filed(side, nodes, orders, index) && DistinctIds(orders) && k < |orders|
    ensures Filed(side, nodes[..k] + nodes[k + 1..], orders[..k] + orders[k + 1..], index - {orders[k].orderId})
  {
    var s' := orders[..k] + orders[k + 1..];
    forall j | 0 <= j < |s'| ensures s'[j].orderId in index - {orders[k].orderId} {
      assert s'[j] == if j < k then orders[j] else orders[j + 1];
    }
  }

  /** An id that is not on this side can come and go in the index. */
  lemma FiledOther(side: Side, nodes: seq<OrderNode>, orders: seq<Order>, index: Index, id: nat, loc: OrderLocation)
    requires Filed(side, nodes, orders, index) && !Has(orders, id)
    ensures Filed(side, nodes, orders, index[id := loc])
    ensures Filed(side, nodes, orders, index - {id})
  {
  }

  /** The nodes of all orders but one. */
  ghost function NodesLeft(nodes: seq<OrderNode>, orders: seq<Order>, id: nat): seq<OrderNode> {
    if Has(orders, id) && Pos(orders, id) < |nodes| then Dropped(nodes, Pos(orders, id)) else nodes
  }

  lemma JoinedLeft(nodes: seq<OrderNode>, orders: seq<Order>, o: Order, it: OrderNode)
    requires !Has(orders, o.orderId) && Slot(o.side, orders, o.price) <= |nodes|
    ensures var k := Slot(o.side, orders, o.price);
            NodesLeft(nodes[..k] + [it] + nodes[k..], Inserted(orders, o), o.orderId) == nodes
  {
    hide Pos;
    WithoutInserted(orders, o);
    InsertedHas(orders, o, o.orderId);
  }

  lemma ResizedLeft(nodes: seq<OrderNode>, orders: seq<Order>, id: nat, quantity: int)
    ensures NodesLeft(nodes, Resized(orders, id, quantity), id) == NodesLeft(nodes, orders, id)
  {
    var s := Resized(orders, id, quantity);
    assert forall k :: 0 <= k < |s| ==> s[k].orderId == orders[k].orderId;
  }

  /** A list after its front has lost some elements. */
  ghost predicate TailOf<T>(s: seq<T>, t: seq<T>) {
    |t| <= |s| && t == s[|s| - |t|..]
  }

  lemma Whole<T>(s: seq<T>)
    ensures TailOf(s, s)
  {
  }

  lemma TailOfRest<T>(s: seq<T>)
    requires s != []
    ensures TailOf(s, s[1..])
  {
  }

  lemma TailOfTail<T>(s: seq<T>, t: seq<T>, u: seq<T>)
    requires TailOf(s, t) && TailOf(t, u)
    ensures TailOf(s, u)
  {
  }

  class OrderBook {
    const bids: BookSide
    const asks: BookSide
    var orderMap: Index
    var stats: SymbolStats

    ghost function Repr(): set<object>
      reads this, bids, asks
    {
      {this, bids, asks} + bids.Repr + asks.Repr
    }

    ghost function View(): Book
      reads this, bids, asks
    {
      Book(bids.orders, asks.orders, stats)
    }

    /** The two sides are sound heap structures that share nothing. */
    ghost predicate Sound()
      reads this, bids, asks, bids.Repr, asks.Repr
    {
      && bids in bids.Repr && asks in asks.Repr
      && bids.Repr !! asks.Repr && this !in bids.Repr && this !in asks.Repr
      && bids.side == Buy && asks.side == Sell
      && bids.Valid() && asks.Valid()
    }

    /** The index and the lists describe each other, and the view is well formed. */
    ghost predicate Valid()
      reads this, bids, asks, bids.Repr, asks.Repr
    {
      && Sound()
      && WellFormed(View())
      && IndexOk()
    }

    ghost predicate IndexOk()
      reads this, bids, asks
    {
      && Filed(Buy, bids.nodes, bids.orders, orderMap)
      && Filed(Sell, asks.nodes, asks.orders, orderMap)
      && Covers(View(), orderMap)
    }

    constructor ()
      ensures Valid() && fresh(Repr())
      ensures View() == EMPTY_BOOK
    {
      bids := new BookSide(Buy);
      asks := new BookSide(Sell);
      orderMap, stats := map[], SymbolStats(0, 0, 0);
    }

    /** One side's list sequence is `bn` or `an` with `it` put in at `k`; the other's is as given. */
    ghost predicate NodesWith(side: Side, bn: seq<OrderNode>, an: seq<OrderNode>, k: nat, it: OrderNode)
      reads bids, asks
    {
      if side.Buy? then k <= |bn| && bids.nodes == bn[..k] + [it] + bn[k..] && asks.nodes == an
      else k <= |an| && asks.nodes == an[..k] + [it] + an[k..] && bids.nodes == bn
    }

    /** One side's list sequence is `bn` or `an` without the node at `k`; the other's is as given. */
    ghost predicate NodesWithout(side: Side, bn: seq<OrderNode>, an: seq<OrderNode>, k: nat)
      reads bids, asks
    {
      if side.Buy? then k < |bn| && bids.nodes == Dropped(bn, k) && asks.nodes == an
      else k < |an| && asks.nodes == Dropped(an, k) && bids.nodes == bn
    }

    /** Append to the list of the order's price level; the list iterator is returned. */
    method Enqueue(o: Order) returns (it: OrderNode)
      requires Sound()
      modifies bids, asks
      ensures Sound() && fresh(it) && Repr() == old(Repr()) + {it}
      ensures View() == Insert(old(View()), o)
      ensures var k := Slot(o.side, SideOf(old(View()), o.side), o.price);
              NodesWith(o.side, old(bids.nodes), old(asks.nodes), k, it)
    {
      if o.side == Buy {
        it := bids.PushBackOrder(o);
      } else {
        it := asks.PushBackOrder(o);
      }
    }

    /** Queue the order and register its iterator in the index. The index stays
        exact just when the id was not already in use. */
    method InsertOrder(o: Order) returns (it: OrderNode)
      requires Valid()
      modifies this`orderMap, bids, asks
      ensures Sound() && fresh(it) && Repr() == old(Repr()) + {it}
      ensures View() == Insert(old(View()), o)
      ensures var k := Slot(o.side, SideOf(old(View()), o.side), o.price);
              NodesWith(o.side, old(bids.nodes), old(asks.nodes), k, it)
      ensures Valid() <==> !Live(old(View()), o.orderId)
    {
      it := Enqueue(o);
      orderMap := orderMap[o.orderId := OrderLocation(o.side, o.price, it)];
      InsertWellFormed(old(View()), o);
      if !Live(old(View()), o.orderId) {
        InsertedIndex(old(View()), old(bids.nodes), old(asks.nodes), old(orderMap), o, it);
      }
    }

    /** Returns false for the rejection message: the id has no index entry. */
    method CancelOrder(orderId: nat) returns (accepted: bool)
      requires Valid()
      modifies Repr()
      ensures Valid() && Repr() == old(Repr())
      ensures accepted <==> Live(old(View()), orderId)
      ensures View() == CancelIn(old(View()), orderId)
      ensures accepted ==>
        var b := old(View());
        var side := Lookup(b, orderId).side;
        NodesWithout(side, old(bids.nodes), old(asks.nodes), Pos(SideOf(b, side), orderId))
    {
      Indexed(orderId);
      accepted := orderId in orderMap;
      if accepted {
        Unlink(orderId);
      }
    }

    method AddOrder(o: Order) returns (ghost it: OrderNode)
      requires Valid()
      modifies Repr()
      ensures Sound() && fresh(Repr() - old(Repr()))
      ensures View() == Add(old(View()), o)
      ensures var k := Slot(o.side, SideOf(old(View()), o.side), o.price);
              NodesWith(o.side, old(bids.nodes), old(asks.nodes), k, it)
      ensures Valid() <==> !Live(old(View()), o.orderId)
    {
      it := InsertOrder(o);
      stats := stats.(totalOrders := stats.totalOrders + 1);
    }

    /** Erase through the stored iterator; `k` is where the node stands on its side.
        A location whose price has no level is ignored. */
    method RemoveByLocation(loc: OrderLocation, ghost k: nat)
      requires Sound()
      requires var side := if loc.side.Buy? then bids else asks;
               Priced(side.orders, loc.price) ==>
                 k < |side.nodes| && side.nodes[k] == loc.it && side.orders[k].price == loc.price
      modifies bids, asks
      ensures Sound() && Repr() == old(Repr())
      ensures if old(Priced(SideOf(View(), loc.side), loc.price))
              then && View() == WithSide(old(View()), loc.side, Dropped(SideOf(old(View()), loc.side), k))
                   && NodesWithout(loc.side, old(bids.nodes), old(asks.nodes), k)
              else View() == old(View()) && bids.nodes == old(bids.nodes) && asks.nodes == old(asks.nodes)
    {
      if loc.side == Buy {
        bids.EraseOrder(loc.price, loc.it, k);
      } else {
        asks.EraseOrder(loc.price, loc.it, k);
      }
    }

    /** An id is indexed exactly when its order rests, and then the entry is the order's location. */
    lemma Indexed(id: nat)
      requires Valid()
      ensures id in orderMap <==> Live(View(), id)
      ensures id in orderMap ==>
        var o := Lookup(View(), id);
        var side := if o.side.Buy? then bids else asks;
        var k := Pos(side.orders, id);
        && k < |side.orders| && side.orders[k] == o && k < |side.nodes|
        && orderMap[id] == OrderLocation(o.side, o.price, side.nodes[k])
        && orderMap[id].it.order == o
        && id == o.orderId && SideOf(View(), o.side) == side.orders
    {
    }

    /** `removeByLocation` on the stored location, then erase the index entry. */
    method Unlink(orderId: nat)
      requires Valid() && orderId in orderMap
      modifies this`orderMap, bids, asks
      ensures Valid() && Repr() == old(Repr())
      ensures View() == CancelIn(old(View()), orderId)
      ensures var b := old(View());
              Live(b, orderId) && var side := Lookup(b, orderId).side;
              NodesWithout(side, old(bids.nodes), old(asks.nodes), Pos(SideOf(b, side), orderId))
    {
      hide WellFormed, Filed, Covers, Pos, Dropped, BookSide.Valid;
      Indexed(orderId);
      var loc := orderMap[orderId];
      ghost var b, bn, an, index := View(), bids.nodes, asks.nodes, orderMap;
      ghost var k := Pos(SideOf(b, loc.side), orderId);
      if loc.side.Buy? {
        ErasedBid(b, bn, an, index, k);
      } else {
        ErasedAsk(b, bn, an, index, k);
      }
      RemoveByLocation(loc, k);
      orderMap := orderMap - {orderId};
    }

    /** Write a smaller quantity through the stored iterator, priority kept. */
    method ReduceInPlace(orderId: nat, newQty: int)
      requires Valid() && orderId in orderMap
      modifies bids`orders, asks`orders, orderMap[orderId].it
      ensures Valid() && Repr() == old(Repr())
      ensures var b := old(View());
              View() == b.(bids := Resized(b.bids, orderId, newQty), asks := Resized(b.asks, orderId, newQty))
    {
      hide WellFormed, Filed, Covers, Pos, BookSide.Valid;
      Indexed(orderId);
      var loc := orderMap[orderId];
      ghost var k := Pos(SideOf(View(), loc.side), orderId);
      if loc.side == Buy {
        bids.SetQuantity(loc.it, newQty, k);
      } else {
        asks.SetQuantity(loc.it, newQty, k);
      }
      ResizedIndex(old(View()), View(), bids.nodes, asks.nodes, orderMap);
    }

    /** Every other order keeps its node, in the same sequence as before. */
    twostate predicate OthersStay(id: nat)
      reads bids, asks
    {
      && NodesLeft(bids.nodes, bids.orders, id) == NodesLeft(old(bids.nodes), old(bids.orders), id)
      && NodesLeft(asks.nodes, asks.orders, id) == NodesLeft(old(asks.nodes), old(asks.orders), id)
    }

    /** Cancel and reinsert under the same id, behind its new price level. */
    method Reinsert(o: Order)
      requires Valid() && o.orderId in orderMap
      modifies this`orderMap, bids, asks
      ensures Valid() && fresh(Repr() - old(Repr()))
      ensures View() == Insert(CancelIn(old(View()), o.orderId), o)
      ensures OthersStay(o.orderId)
    {
      hide Filed, Covers, BookSide.Valid, Pos, Inserted, Slot;
      ghost var b, bn, an := View(), bids.nodes, asks.nodes;
      CancelledIsGone(b, o.orderId);
      Indexed(o.orderId);
      LookupSide(b, o.orderId);
      Unlink(o.orderId);
      ghost var bn', an' := bids.nodes, asks.nodes;
      assert bn' == NodesLeft(bn, b.bids, o.orderId) && an' == NodesLeft(an, b.asks, o.orderId);
      ghost var b' := View();
      var it := InsertOrder(o);
      if o.side.Buy? {
        JoinedLeft(bn', b'.bids, o, it);
      } else {
        JoinedLeft(an', b'.asks, o, it);
      }
    }

    /** Case by case as the guards of the source have it; whatever the case, the list
        iterators of all other orders stay good and in order. */
    method ModifyOrder(orderId: nat, newQty: int, newPrice: Price, timestamp: int) returns (accepted: bool)
      requires Valid()
      modifies Repr()
      ensures Valid() && fresh(Repr() - old(Repr()))
      ensures accepted <==> Live(old(View()), orderId)
      ensures View() == ModifyIn(old(View()), orderId, newQty, newPrice, timestamp)
      ensures OthersStay(orderId)
      ensures var b := old(View());
        !Live(b, orderId) || (newPrice == Lookup(b, orderId).price && newQty < Lookup(b, orderId).quantity) ==>
          bids.nodes == old(bids.nodes) && asks.nodes == old(asks.nodes)
    {
      Indexed(orderId);
      accepted := orderId in orderMap;
      if !accepted {
        return;
      }
      var existing := orderMap[orderId].it.order;
      if newPrice == existing.price && newQty < existing.quantity {
        ResizedLeft(bids.nodes, bids.orders, orderId, newQty);
        ResizedLeft(asks.nodes, asks.orders, orderId, newQty);
        ReduceInPlace(orderId, newQty);
        return;
      }
      Reinsert(Order(orderId, existing.side, newPrice, newQty, timestamp));
    }

    /** A fully filled front bid leaves its list and the index. */
    method RetireBid()
      requires Valid() && bids.orders != []
      modifies this`orderMap, bids
      ensures Valid() && Repr() == old(Repr())
      ensures bids.orders == old(bids.orders)[1..]
      ensures old(bids.nodes) != [] && bids.nodes == old(bids.nodes)[1..]
    {
      hide WellFormed, Filed, Covers, BookSide.Valid;
      ErasedBid(View(), bids.nodes, asks.nodes, orderMap, 0);
      assert Dropped(bids.orders, 0) == bids.orders[1..] && Dropped(bids.nodes, 0) == bids.nodes[1..];
      var firstBid := bids.Front();
      orderMap := orderMap - {firstBid.order.orderId};
      bids.PopFront();
    }

    method RetireAsk()
      requires Valid() && asks.orders != []
      modifies this`orderMap, asks
      ensures Valid() && Repr() == old(Repr())
      ensures asks.orders == old(asks.orders)[1..]
      ensures old(asks.nodes) != [] && asks.nodes == old(asks.nodes)[1..]
    {
      hide WellFormed, Filed, Covers, BookSide.Valid;
      ErasedAsk(View(), bids.nodes, asks.nodes, orderMap, 0);
      assert Dropped(asks.orders, 0) == asks.orders[1..] && Dropped(asks.nodes, 0) == asks.nodes[1..];
      var firstAsk := asks.Front();
      orderMap := orderMap - {firstAsk.order.orderId};
      asks.PopFront();
    }

    /** One pass of the matching loop: the two front orders trade. */
    method TradeFronts() returns (t: Trade)
      requires Valid() && bids.orders != [] && asks.orders != []
      modifies Repr()
      ensures Valid() && Repr() == old(Repr())
      ensures t == TradeOf(old(bids.orders[0]), old(asks.orders[0]))
      ensures bids.orders == FillFront(old(bids.orders), t.quantity)
      ensures asks.orders == FillFront(old(asks.orders), t.quantity)
      ensures stats == Tally(old(stats), 1, t.quantity)
      ensures TailOf(old(bids.nodes), bids.nodes) && TailOf(old(asks.nodes), asks.nodes)
    {
      hide WellFormed, Filed, Covers, BookSide.Valid, TailOf;
      ghost var bn, an := bids.nodes, asks.nodes;
      Whole(bn);
      Whole(an);
      var firstBid := bids.Front();
      var firstAsk := asks.Front();
      var tradeQty := Min(firstBid.order.quantity, firstAsk.order.quantity);
      var tradePrice :=
        if firstBid.order.timestamp <= firstAsk.order.timestamp then firstBid.order.price else firstAsk.order.price;
      t := Trade(tradePrice, tradeQty, firstBid.order.orderId, firstAsk.order.orderId);
      StatsAside(View(), Tally(stats, 1, tradeQty), orderMap);
      stats := Tally(stats, 1, tradeQty);
      assert View() == old(View()).(stats := stats);
      ghost var tallied := stats;
      ReduceFronts(firstBid, firstAsk, tradeQty);
      assert stats == tallied;
      var bidDone, askDone := firstBid.order.quantity == 0, firstAsk.order.quantity == 0;
      if bidDone {
        RetireBid();
        TailOfRest(bn);
        assert stats == tallied;
      }
      if askDone {
        RetireAsk();
        TailOfRest(an);
        assert stats == tallied;
      }
    }

    method ReduceFronts(firstBid: OrderNode, firstAsk: OrderNode, tradeQty: int)
      requires Valid() && bids.orders != [] && asks.orders != []
      requires firstBid == bids.nodes[0] && firstAsk == asks.nodes[0]
      modifies bids`orders, asks`orders, firstBid, firstAsk
      ensures Valid() && Repr() == old(Repr())
      ensures bids.orders == Lessened(old(bids.orders), tradeQty)
      ensures asks.orders == Lessened(old(asks.orders), tradeQty)
      ensures firstBid.order == bids.orders[0] && firstAsk.order == asks.orders[0]
    {
      hide WellFormed, Filed, Covers, Files;
      ghost var b := View();
      assert firstBid.order == b.bids[0] && firstAsk.order == b.asks[0];
      bids.SetQuantity(firstBid, firstBid.order.quantity - tradeQty, 0);
      assert bids.orders == Lessened(b.bids, tradeQty) && firstAsk.order == b.asks[0];
      asks.SetQuantity(firstAsk, firstAsk.order.quantity - tradeQty, 0);
      assert asks.orders == Lessened(b.asks, tradeQty);
      ResizedIndex(b, View(), bids.nodes, asks.nodes, orderMap);
    }

    /** Match while the book is crossed; the trades are the program's trade output. */
    method MatchOrders() returns (trades: seq<Trade>)
      requires Valid()
      modifies Repr()
      ensures Valid() && Repr() == old(Repr())
      ensures View() == MatchBook(old(View()))
      ensures trades == MatchTrades(old(View()))
      ensures TailOf(old(bids.nodes), bids.nodes) && TailOf(old(asks.nodes), asks.nodes)
    {
      hide WellFormed, Filed, Covers, BookSide.Valid, TailOf;
      trades := [];
      ghost var bn, an := bids.nodes, asks.nodes;
      Whole(bn);
      Whole(an);
      ghost var b, r := View(), MatchSides(bids.orders, asks.orders);
      while !bids.Empty() && !asks.Empty()
        invariant Valid() && Repr() == old(Repr())
        invariant var rest := MatchSides(bids.orders, asks.orders);
                  r == MatchResult(rest.bids, rest.asks, trades + rest.trades)
        invariant stats == Tally(b.stats, |trades|, Volume(trades))
        invariant TailOf(bn, bids.nodes) && TailOf(an, asks.nodes)
        decreases |bids.orders| + |asks.orders|
      {
        bids.FrontAgrees();
        asks.FrontAgrees();
        if bids.BestPrice() < asks.BestPrice() {
          break;
        }
        MatchUnfolds(bids.orders, asks.orders, trades);
        ghost var bn', an' := bids.nodes, asks.nodes;
        var t := TradeFronts();
        TailOfTail(bn, bn', bids.nodes);
        TailOfTail(an, an', asks.nodes);
        VolumeAppend(trades, t);
        TallyTwice(b.stats, |trades|, Volume(trades), t.quantity);
        trades := trades + [t];
      }
      bids.FrontAgrees();
      asks.FrontAgrees();
      assert trades + [] == trades;
      assert r == MatchResult(bids.orders, asks.orders, trades);
      assert View() == MatchBook(b);
    }
  }

  /** Inserting under a new id keeps the index and the lists in step. */
  lemma InsertedIndex(b: Book, bn: seq<OrderNode>, an: seq<OrderNode>, index: Index, o: Order, it: OrderNode)
    requires !Live(b, o.orderId)
    requires Filed(Buy, bn, b.bids, index) && Filed(Sell, an, b.asks, index) && Covers(b, index)
    ensures var index' := index[o.orderId := OrderLocation(o.side, o.price, it)];
            var k := Slot(o.side, SideOf(b, o.side), o.price);
            var b' := Insert(b, o);
            && Filed(Buy, if o.side.Buy? then bn[..k] + [it] + bn[k..] else bn, b'.bids, index')
            && Filed(Sell, if o.side.Buy? then an else an[..k] + [it] + an[k..], b'.asks, index')
            && Covers(b', index')
  {
    var loc := OrderLocation(o.side, o.price, it);
    if o.side.Buy? {
      FiledJoin(Buy, bn, b.bids, index, o, it);
      FiledOther(Sell, an, b.asks, index, o.orderId, loc);
    } else {
      FiledJoin(Sell, an, b.asks, index, o, it);
      FiledOther(Buy, bn, b.bids, index, o.orderId, loc);
    }
    forall id | id in index[o.orderId := loc] ensures Live(Insert(b, o), id) {
      InsertedHas(SideOf(b, o.side), o, id);
    }
  }

  /** Erasing one bid from its list and from the index keeps the two in step. */
  lemma ErasedBid(b: Book, bn: seq<OrderNode>, an: seq<OrderNode>, index: Index, k: nat)
    requires WellFormed(b) && k < |b.bids|
    requires Filed(Buy, bn, b.bids, index) && Filed(Sell, an, b.asks, index) && Covers(b, index)
    ensures var id := b.bids[k].orderId;
            var b' := b.(bids := Dropped(b.bids, k));
            && |bn| == |b.bids| && |an| == |b.asks|
            && b' == CancelIn(b, id) && WellFormed(b') && Covers(b', index - {id})
            && Filed(Buy, Dropped(bn, k), b'.bids, index - {id}) && Filed(Sell, an, b'.asks, index - {id})
  {
    var id := b.bids[k].orderId;
    PosIs(b.bids, k);
    HasOnce(b, id);
    FiledDrop(Buy, bn, b.bids, index, k);
    FiledOther(Sell, an, b.asks, index, id, index[id]);
    WithoutWellFormed(b, id);
    CoversWithout(b, index, id);
  }

  lemma ErasedAsk(b: Book, bn: seq<OrderNode>, an: seq<OrderNode>, index: Index, k: nat)
    requires WellFormed(b) && k < |b.asks|
    requires Filed(Buy, bn, b.bids, index) && Filed(Sell, an, b.asks, index) && Covers(b, index)
    ensures var id := b.asks[k].orderId;
            var b' := b.(asks := Dropped(b.asks, k));
            && |bn| == |b.bids| && |an| == |b.asks|
            && b' == CancelIn(b, id) && WellFormed(b') && Covers(b', index - {id})
            && Filed(Buy, bn, b'.bids, index - {id}) && Filed(Sell, Dropped(an, k), b'.asks, index - {id})
  {
    var id := b.asks[k].orderId;
    PosIs(b.asks, k);
    HasOnce(b, id);
    FiledDrop(Sell, an, b.asks, index, k);
    FiledOther(Buy, bn, b.bids, index, id, index[id]);
    WithoutWellFormed(b, id);
    CoversWithout(b, index, id);
  }

  lemma CoversWithout(b: Book, index: Index, id: nat)
    requires WellFormed(b) && Covers(b, index)
    ensures Covers(CancelIn(b, id), index - {id})
  {
    hide Without;
    forall x | x in index - {id} ensures Live(CancelIn(b, id), x) {
      WithoutHas(b.bids, id, x);
      WithoutHas(b.asks, id, x);
    }
  }

  /** Quantities are no concern of the index. */
  lemma ResizedIndex(b: Book, b': Book, bn: seq<OrderNode>, an: seq<OrderNode>, index: Index)
    requires WellFormed(b)
    requires Filed(Buy, bn, b.bids, index) && Filed(Sell, an, b.asks, index) && Covers(b, index)
    requires SameButQuantity(b.bids, b'.bids) && SameButQuantity(b.asks, b'.asks)
    ensures WellFormed(b')
    ensures Filed(Buy, bn, b'.bids, index) && Filed(Sell, an, b'.asks, index) && Covers(b', index)
  {
    RequantifiedWellFormed(b, b');
    forall x | x in index ensures Live(b', x) {
      SameHas(b.bids, b'.bids, x);
      SameHas(b.asks, b'.asks, x);
    }
  }
}
