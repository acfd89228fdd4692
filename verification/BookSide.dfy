/** One side of the book in the heap: std::map<double, std::list<Order>> with
    its comparator. The map is a sequence of levels; the list elements are heap
    nodes, so that a list iterator is a reference to a node. */
module BookSides {
  import opened Orders
  import opened BookSpec
  import opened Levels

  /** A std::list node; a reference to it plays the part of a list iterator. */
  class OrderNode {
    var order: Order

    constructor (o: Order)
      ensures order == o
    {
      order := o;
    }
  }

  /** The levels file `nodes[k]` under the price of `orders[k]`, in priority order. */
  ghost predicate Files(side: Side, levels: seq<Level<OrderNode>>, nodes: seq<OrderNode>, orders: seq<Order>) {
    && Ordered(side, levels)
    && |Flat(levels)| == |nodes| == |orders|
    && (forall k :: 0 <= k < |nodes| ==> Flat(levels)[k] == Entry(orders[k].price, nodes[k]))
    && (forall m, n :: 0 <= m < n < |nodes| ==> nodes[m] != nodes[n])
  }

  lemma FilesJoin(side: Side, levels: seq<Level<OrderNode>>, nodes: seq<OrderNode>, orders: seq<Order>,
                  o: Order, it: OrderNode)
    requires Files(side, levels, nodes, orders) && o.side == side && it !in nodes
    ensures var k := Slot(side, orders, o.price);
            Files(side, PushBack(side, levels, o.price, it), nodes[..k] + [it] + nodes[k..], Inserted(orders, o))
  {
    hide PushBack, Flat, Tagged, Ordered;
    var k := PushBackFlat(side, levels, o.price, it);
    SlotIs(side, orders, o.price, k);
    FilesInsert(Flat(levels), nodes, orders, k, o, it);
  }

  lemma FilesInsert(es: seq<Entry<OrderNode>>, nodes: seq<OrderNode>, orders: seq<Order>,
                    k: nat, o: Order, it: OrderNode)
    requires |es| == |nodes| == |orders| && k <= |es|
    requires forall j :: 0 <= j < |es| ==> es[j] == Entry(orders[j].price, nodes[j])
    ensures var es', nodes', orders' := es[..k] + [Entry(o.price, it)] + es[k..], nodes[..k] + [it] + nodes[k..],
                                        orders[..k] + [o] + orders[k..];
            forall j :: 0 <= j < |es'| ==> es'[j] == Entry(orders'[j].price, nodes'[j])
  {
  }

  lemma FilesErase(side: Side, levels: seq<Level<OrderNode>>, nodes: seq<OrderNode>, orders: seq<Order>,
                   i: nat, j: nat, k: nat)
    requires Files(side, levels, nodes, orders)
    requires i < |levels| && j < |levels[i].queue| && k < |nodes| && nodes[k] == levels[i].queue[j]
    ensures Files(side, SetQueue(levels, i, levels[i].queue[..j] + levels[i].queue[j + 1..]),
                  nodes[..k] + nodes[k + 1..], orders[..k] + orders[k + 1..])
  {
    EraseFlat(side, levels, i, j, k);
    hide Flat, SetQueue, Tagged;
  }

  lemma FilesSameLength(side: Side, levels: seq<Level<OrderNode>>, nodes: seq<OrderNode>, orders: seq<Order>)
    requires Files(side, levels, nodes, orders)
    ensures |nodes| == |orders|
  {
  }

  lemma FilesPop(side: Side, levels: seq<Level<OrderNode>>, nodes: seq<OrderNode>, orders: seq<Order>)
    requires Files(side, levels, nodes, orders)
    requires levels != [] && levels[0].queue != [] && orders != [] && nodes != [] && levels[0].queue[0] == nodes[0]
    ensures Files(side, SetQueue(levels, 0, levels[0].queue[1..]), nodes[1..], orders[1..])
  {
    hide Files, SetQueue;
    FilesSameLength(side, levels, nodes, orders);
    FilesErase(side, levels, nodes, orders, 0, 0, 0);
    assert levels[0].queue[..0] + levels[0].queue[1..] == levels[0].queue[1..];
    assert nodes[..0] + nodes[1..] == nodes[1..] && orders[..0] + orders[1..] == orders[1..];
  }

  lemma FilesFront(side: Side, levels: seq<Level<OrderNode>>, nodes: seq<OrderNode>, orders: seq<Order>)
    requires Files(side, levels, nodes, orders)
    ensures levels == [] <==> orders == []
    ensures orders != [] ==>
      levels[0].queue != [] && levels[0].queue[0] == nodes[0] && levels[0].price == orders[0].price
  {
    if levels != [] {
      assert Flat(levels)[0] == Tagged(levels[0])[0];
    }
  }

  /** Some order of this side rests at this price. */
  ghost predicate Priced(orders: seq<Order>, price: Price) {
    exists j :: 0 <= j < |orders| && orders[j].price == price
  }

  /** The map has a level at a price exactly when some order rests there. */
  lemma LevelFound(side: Side, levels: seq<Level<OrderNode>>, nodes: seq<OrderNode>, orders: seq<Order>, price: Price)
    requires Files(side, levels, nodes, orders)
    ensures var i := Find(side, levels, price);
            i < |levels| && levels[i].price == price <==> Priced(orders, price)
  {
    hide Flat;
    var i := Find(side, levels, price);
    if i < |levels| && levels[i].price == price {
      FlatSplit(levels, i);
      assert Flat(levels)[|Flat(levels[..i])|] == Tagged(levels[i])[0];
      assert orders[|Flat(levels[..i])|].price == price;
    }
    if j :| 0 <= j < |orders| && orders[j].price == price {
      var found := Locate(side, levels, j);
    }
  }

  class BookSide {
    const side: Side
    var levels: seq<Level<OrderNode>>

    ghost var nodes: seq<OrderNode>
    ghost var orders: seq<Order>
    ghost var Repr: set<object>

    ghost predicate Valid()
      reads this, Repr
    {
      && this in Repr
      && Files(side, levels, nodes, orders)
      && |nodes| == |orders|
      && forall k :: 0 <= k < |nodes| ==> nodes[k] in Repr && nodes[k].order == orders[k]
    }

    constructor (side: Side)
      ensures Valid() && fresh(Repr)
      ensures this.side == side && orders == []
    {
      this.side := side;
      levels, nodes, orders := [], [], [];
      Repr := {this};
    }

    /** `map[o.price].push_back(o)`; the new iterator is returned. */
    method PushBackOrder(o: Order) returns (it: OrderNode)
      requires Valid() && o.side == side
      modifies this
      ensures Valid() && fresh(it) && Repr == old(Repr) + {it}
      ensures orders == Inserted(old(orders), o)
      ensures var k := Slot(side, old(orders), o.price); nodes == old(nodes)[..k] + [it] + old(nodes)[k..]
    {
      it := new OrderNode(o);
      ghost var k := Slot(side, orders, o.price);
      FilesJoin(side, levels, nodes, orders, o, it);
      hide Files, PushBack, Slot;
      levels := PushBack(side, levels, o.price, it);
      nodes, orders := nodes[..k] + [it] + nodes[k..], Inserted(orders, o);
      Repr := Repr + {it};
      forall j | 0 <= j < |nodes| ensures nodes[j] in Repr && nodes[j].order == orders[j] {
        if j < k {
          assert nodes[j] == old(nodes)[j] && orders[j] == old(orders)[j];
        } else if k < j {
          assert nodes[j] == old(nodes)[j - 1] && orders[j] == old(orders)[j - 1];
        }
      }
    }

    /** `map.find(price)`, erase by iterator, and drop the level when it empties. A
        price without a level is ignored; in a level, the iterator must be valid. */
    method EraseOrder(price: Price, it: OrderNode, ghost k: nat)
      requires Valid()
      requires Priced(orders, price) ==> k < |nodes| && nodes[k] == it && orders[k].price == price
      modifies this
      ensures Valid() && Repr == old(Repr)
      ensures if old(Priced(orders, price)) then orders == Dropped(old(orders), k) && nodes == Dropped(old(nodes), k)
              else orders == old(orders) && nodes == old(nodes) && levels == old(levels)
    {
      LevelFound(side, levels, nodes, orders, price);
      var i := Find(side, levels, price);
      if i < |levels| && levels[i].price == price {
        ghost var found := Locate(side, levels, k);
        var queue := levels[i].queue;
        var j := IndexOf(queue, it);
        FilesErase(side, levels, nodes, orders, i, j, k);
        levels := SetQueue(levels, i, queue[..j] + queue[j + 1..]);
        nodes, orders := nodes[..k] + nodes[k + 1..], orders[..k] + orders[k + 1..];
      }
    }

    /** Write a quantity through an iterator. */
    method SetQuantity(it: OrderNode, quantity: int, ghost k: nat)
      requires Valid() && k < |nodes| && nodes[k] == it
      modifies this`orders, it
      ensures Valid()
      ensures orders == old(orders)[k := old(orders)[k].(quantity := quantity)]
    {
      it.order := it.order.(quantity := quantity);
      orders := orders[k := orders[k].(quantity := quantity)];
    }

    /** `begin()` names the front order. */
    lemma FrontAgrees()
      requires Valid()
      ensures Empty() <==> orders == []
      ensures !Empty() ==> BestPrice() == orders[0].price
    {
      FilesFront(side, levels, nodes, orders);
    }

    predicate Empty()
      reads this
    {
      levels == []
    }

    /** `begin()->first` */
    function BestPrice(): Price
      reads this
      requires levels != []
    {
      levels[0].price
    }

    /** `begin()->second.front()` */
    method Front() returns (it: OrderNode)
      requires Valid() && orders != []
      ensures it == nodes[0] && it in Repr && it.order == orders[0]
    {
      FilesFront(side, levels, nodes, orders);
      it := levels[0].queue[0];
    }

    /** `begin()->second.pop_front()`, and drop the level when it empties. */
    method PopFront()
      requires Valid() && orders != []
      modifies this
      ensures Valid() && Repr == old(Repr)
      ensures orders == old(orders)[1..] && nodes == old(nodes)[1..]
    {
      FilesFront(side, levels, nodes, orders);
      var queue := levels[0].queue;
      FilesPop(side, levels, nodes, orders);
      hide Files, SetQueue;
      levels := SetQueue(levels, 0, queue[1..]);
      nodes, orders := nodes[1..], orders[1..];
    }
  }
}
