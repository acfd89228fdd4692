/** CANCEL takes an unmatched NEW back in every field of the heap structure:
    both price maps level by level, down to the nodes, and the index. */
module RoundTrips {
  import opened Orders
  import opened BookSpec
  import opened Levels
  import opened BookSides
  import opened OrderBooks
  import opened Priorities

  /** The nodes and their orders determine the price map, levels included. */
  lemma LevelsDetermined(side: Side, xs: seq<Level<OrderNode>>, ys: seq<Level<OrderNode>>,
                         nodes: seq<OrderNode>, orders: seq<Order>)
    requires Files(side, xs, nodes, orders) && Files(side, ys, nodes, orders)
    ensures xs == ys
  {
    hide Flat;
    assert Flat(xs) == Flat(ys);
    FlatDetermines(side, xs, ys);
  }

  /** They determine the index as well. */
  lemma IndexDetermined(b: Book, bn: seq<OrderNode>, an: seq<OrderNode>, x: Index, y: Index)
    requires Filed(Buy, bn, b.bids, x) && Filed(Sell, an, b.asks, x) && Covers(b, x)
    requires Filed(Buy, bn, b.bids, y) && Filed(Sell, an, b.asks, y) && Covers(b, y)
    ensures x == y
  {
    forall id ensures id in x <==> id in y {
      if Live(b, id) {
        var k := Pos(if Has(b.bids, id) then b.bids else b.asks, id);
      }
    }
    forall id | id in x && id in y ensures x[id] == y[id] {
      assert Live(b, id);
    }
  }

  lemma DroppedBack(nodes: seq<OrderNode>, k: nat, it: OrderNode)
    requires k <= |nodes|
    ensures Dropped(nodes[..k] + [it] + nodes[k..], k) == nodes
  {
  }

  /** The representation behind a valid book. */
  lemma Parts(book: OrderBook)
    requires book.Valid()
    ensures var b, bn, an := book.View(), book.bids.nodes, book.asks.nodes;
            && Files(Buy, book.bids.levels, bn, b.bids) && Files(Sell, book.asks.levels, an, b.asks)
            && Filed(Buy, bn, b.bids, book.orderMap) && Filed(Sell, an, b.asks, book.orderMap)
            && Covers(b, book.orderMap) && |bn| == |b.bids| && |an| == |b.asks|
  {
  }

  /** Where the new order stands, and that taking it out leaves the old book. */
  lemma Undone(b: Book, o: Order)
    requires !Live(b, o.orderId)
    ensures var b' := Add(b, o);
            && Live(b', o.orderId) && Lookup(b', o.orderId).side == o.side
            && Pos(SideOf(b', o.side), o.orderId) == Slot(o.side, SideOf(b, o.side), o.price)
            && CancelIn(b', o.orderId) == b.(stats := b'.stats)
  {
    CancelUndoesAdd(b, o);
    WithoutInserted(SideOf(b, o.side), o);
    InsertedHas(SideOf(b, o.side), o, o.orderId);
    var k := Slot(o.side, SideOf(b, o.side), o.price);
    assert Inserted(SideOf(b, o.side), o)[k] == o;
  }

  method AddThenCancel(book: OrderBook, o: Order)
    requires book.Valid() && !Live(book.View(), o.orderId)
    modifies book.Repr()
    ensures book.Valid()
    ensures book.bids.levels == old(book.bids.levels) && book.asks.levels == old(book.asks.levels)
    ensures book.orderMap == old(book.orderMap)
    ensures book.View() == old(book.View()).(stats := Add(old(book.View()), o).stats)
  {
    hide OrderBook.Valid, Add, CancelIn, Live, Lookup, Pos, Slot, Files, Filed, Covers, Dropped;
    Parts(book);
    ghost var b, bn, an, index := book.View(), book.bids.nodes, book.asks.nodes, book.orderMap;
    ghost var bl, al := book.bids.levels, book.asks.levels;
    Undone(b, o);
    ghost var it := book.AddOrder(o);
    var accepted := book.CancelOrder(o.orderId);
    DroppedBack(if o.side.Buy? then bn else an, Slot(o.side, SideOf(b, o.side), o.price), it);
    assert book.bids.nodes == bn && book.asks.nodes == an;
    Parts(book);
    LevelsDetermined(Buy, book.bids.levels, bl, bn, b.bids);
    LevelsDetermined(Sell, book.asks.levels, al, an, b.asks);
    StatsAside(b, book.stats, index);
    IndexDetermined(book.View(), bn, an, book.orderMap, index);
  }
}
