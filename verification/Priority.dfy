/** Time priority over runs, what MODIFY does to priority, and what CANCEL undoes. */
module Priorities {
  import opened Orders
  import opened BookSpec
  import opened Matching
  import opened BookRuns

  // ----- list order is time order

  /** Within a price, earlier stamps stand in front. */
  ghost predicate TimeOrdered(s: seq<Order>) {
    forall i, j :: 0 <= i < j < |s| && s[i].price == s[j].price ==> s[i].timestamp <= s[j].timestamp
  }

  /** A newcomer keeps its level in time order exactly when nobody there is later. */
  lemma InsertedTimeOrderedIff(s: seq<Order>, o: Order)
    requires Sorted(o.side, s) && TimeOrdered(s)
    ensures TimeOrdered(Inserted(s, o))
       <==> (forall i :: 0 <= i < |s| && s[i].price == o.price ==> s[i].timestamp <= o.timestamp)
  {
    var k, s' := Slot(o.side, s, o.price), Inserted(s, o);
    forall i | 0 <= i < |s| && s[i].price == o.price ensures i < k && s'[i] == s[i] {
      SlotSplits(o.side, s, o.price, i);
    }
    assert s'[k] == o;
    forall j | k <= j < |s| ensures s[j].price != o.price {
      SlotSplits(o.side, s, o.price, j);
    }
    if forall i :: 0 <= i < |s| && s[i].price == o.price ==> s[i].timestamp <= o.timestamp {
      forall i, j | 0 <= i < j < |s'| && s'[i].price == s'[j].price ensures s'[i].timestamp <= s'[j].timestamp {
        assert i < k ==> s'[i] == s[i];
        assert i > k ==> s'[i] == s[i - 1];
        assert j < k ==> s'[j] == s[j];
        assert j > k ==> s'[j] == s[j - 1];
      }
    }
  }

  /** Orders that can be picked out of `s` in order, quantities aside, inherit its time order. */
  ghost predicate Picks(s: seq<Order>, t: seq<Order>, at: seq<int>) {
    && |at| == |t|
    && (forall k :: 0 <= k < |at| ==> 0 <= at[k] < |s|)
    && (forall i, j :: 0 <= i < j < |at| ==> at[i] < at[j])
    && (forall k :: 0 <= k < |t| ==> t[k] == s[at[k]].(quantity := t[k].quantity))
  }

  ghost predicate StampedBy(s: seq<Order>, bound: int) {
    forall i :: 0 <= i < |s| ==> s[i].timestamp <= bound
  }

  lemma PicksOrdered(s: seq<Order>, t: seq<Order>, at: seq<int>)
    requires Picks(s, t, at)
    ensures TimeOrdered(s) ==> TimeOrdered(t)
    ensures forall bound :: StampedBy(s, bound) ==> StampedBy(t, bound)
  {
    if TimeOrdered(s) {
      forall i, j | 0 <= i < j < |t| && t[i].price == t[j].price ensures t[i].timestamp <= t[j].timestamp {
        assert s[at[i]].price == t[i].price && s[at[j]].price == t[j].price;
      }
    }
  }

  lemma WithoutOrdered(s: seq<Order>, id: nat)
    ensures TimeOrdered(s) ==> TimeOrdered(Without(s, id))
    ensures forall bound :: StampedBy(s, bound) ==> StampedBy(Without(s, id), bound)
  {
    hide Pos, TimeOrdered, StampedBy;
    var k, t := Pos(s, id), Without(s, id);
    PicksOrdered(s, t, seq(|t|, j => if j < k then j else j + 1));
  }

  lemma SameOrdered(s: seq<Order>, t: seq<Order>)
    requires SameButQuantity(s, t)
    ensures TimeOrdered(s) ==> TimeOrdered(t)
    ensures forall bound :: StampedBy(s, bound) ==> StampedBy(t, bound)
  {
    hide TimeOrdered, StampedBy;
    PicksOrdered(s, t, seq(|t|, j => j));
  }

  lemma ResidueOrdered(s: seq<Order>, t: seq<Order>)
    requires Residue(s, t)
    ensures TimeOrdered(s) ==> TimeOrdered(t)
    ensures forall bound :: StampedBy(s, bound) ==> StampedBy(t, bound)
  {
    hide TimeOrdered, StampedBy;
    PicksOrdered(s, t, seq(|t|, j => |s| - |t| + j));
  }

  lemma InsertedOrdered(s: seq<Order>, o: Order, bound: int)
    requires Sorted(o.side, s) && TimeOrdered(s) && StampedBy(s, o.timestamp) && o.timestamp <= bound
    ensures TimeOrdered(Inserted(s, o)) && StampedBy(Inserted(s, o), bound)
  {
    InsertedTimeOrderedIff(s, o);
    var k, s' := Slot(o.side, s, o.price), Inserted(s, o);
    assert forall j :: 0 <= j < |s'| ==> s'[j] == if j < k then s[j] else if j == k then o else s[j - 1];
  }

  ghost predicate InTime(b: Book, bound: int) {
    TimeOrdered(b.bids) && StampedBy(b.bids, bound) && TimeOrdered(b.asks) && StampedBy(b.asks, bound)
  }

  /** The stamp that a matched command can put on an order. */
  function Stamp(c: Command): int
    requires Matches(c)
  {
    if c.New? then c.timestamp else c.modifyTime
  }

  lemma CancelInTime(b: Book, id: nat, bound: int)
    requires InTime(b, bound)
    ensures InTime(CancelIn(b, id), bound)
  {
    WithoutOrdered(b.bids, id);
    WithoutOrdered(b.asks, id);
  }

  lemma ModifyInTime(b: Book, c: Command, bound: int)
    requires WellFormed(b) && c.Modify? && InTime(b, c.modifyTime) && c.modifyTime <= bound
    ensures InTime(Effect(b, c), bound)
  {
    var id := c.modifyId;
    if KeepsPriority(b, id, c.newQuantity, c.newPrice) {
      ResizedSame(b.bids, id, c.newQuantity);
      ResizedSame(b.asks, id, c.newQuantity);
      SameOrdered(b.bids, Resized(b.bids, id, c.newQuantity));
      SameOrdered(b.asks, Resized(b.asks, id, c.newQuantity));
    } else if Live(b, id) {
      var o := Order(id, Lookup(b, id).side, c.newPrice, c.newQuantity, c.modifyTime);
      WithoutWellFormed(b, id);
      CancelInTime(b, id, c.modifyTime);
      InsertedOrdered(SideOf(CancelIn(b, id), o.side), o, bound);
    }
  }

  lemma NewInTime(b: Book, o: Order, bound: int)
    requires WellFormed(b) && InTime(b, o.timestamp) && o.timestamp <= bound
    ensures InTime(Insert(b, o), bound)
  {
    hide Inserted;
    InsertedOrdered(SideOf(b, o.side), o, bound);
  }

  lemma EffectInTime(b: Book, c: Command, bound: int)
    requires WellFormed(b) && (if Matches(c) then InTime(b, Stamp(c)) && Stamp(c) <= bound else InTime(b, bound))
    ensures InTime(Effect(b, c), bound)
  {
    hide TimeOrdered, StampedBy, ModifyIn, CancelIn, Insert, WellFormed;
    if c.New? {
      NewInTime(b, OrderOf(c), bound);
    } else if c.Cancel? {
      CancelInTime(b, c.cancelId, bound);
    } else if c.Modify? {
      ModifyInTime(b, c, bound);
    }
  }

  lemma StepInTime(b: Book, c: Command, bound: int)
    requires WellFormed(b) && (if Matches(c) then InTime(b, Stamp(c)) && Stamp(c) <= bound else InTime(b, bound))
    ensures InTime(BookStep(b, c), bound)
  {
    hide TimeOrdered, StampedBy, Effect, WellFormed, Residue;
    EffectInTime(b, c, bound);
    if Matches(c) {
      var e, b' := Effect(b, c), BookStep(b, c);
      MatchShape(e.bids, e.asks);
      ResidueOrdered(e.bids, b'.bids);
      ResidueOrdered(e.asks, b'.asks);
    }
  }

  ghost predicate StampsNeverDecrease(cs: seq<Command>) {
    forall i, j :: 0 <= i < j < |cs| && Matches(cs[i]) && Matches(cs[j]) ==> Stamp(cs[i]) <= Stamp(cs[j])
  }

  /** If dispatched stamps never decrease, list order is time order in every
      reachable book, so the front of a level really is its oldest order. */
  lemma {:induction false} RunInTime(cs: seq<Command>, bound: int)
    requires FreshIds(cs) && StampsNeverDecrease(cs)
    requires forall i :: 0 <= i < |cs| && Matches(cs[i]) ==> Stamp(cs[i]) <= bound
    ensures InTime(BookRun(cs), bound)
  {
    if cs != [] {
      var before, c := cs[..|cs| - 1], cs[|cs| - 1];
      NewIsFresh(cs);
      RunGood(before);
      RunInTime(before, if Matches(c) then Stamp(c) else bound);
      StepInTime(BookRun(before), c, bound);
    }
  }

  // ----- time order without any assumption on the clock, exactly

  ghost predicate BookTimeOrdered(b: Book) {
    TimeOrdered(b.bids) && TimeOrdered(b.asks)
  }

  /** Nobody at the newcomer's price, on its side, has a later stamp. */
  ghost predicate NobodyLater(b: Book, o: Order) {
    var s := SideOf(b, o.side);
    forall i :: 0 <= i < |s| && s[i].price == o.price ==> s[i].timestamp <= o.timestamp
  }

  lemma InsertBookTimeOrderedIff(b: Book, o: Order)
    requires WellFormed(b) && BookTimeOrdered(b)
    ensures BookTimeOrdered(Insert(b, o)) <==> NobodyLater(b, o)
  {
    hide TimeOrdered, Inserted;
    InsertedTimeOrderedIff(SideOf(b, o.side), o);
  }

  /** Where somebody already rests at the newcomer's price, the newcomer trades with nobody. */
  lemma SharedLevelRests(b: Book, o: Order, i: nat)
    requires Good(b) && i < |SideOf(b, o.side)| && SideOf(b, o.side)[i].price == o.price
    ensures Uncrossed(Insert(b, o).bids, Insert(b, o).asks)
  {
    var s := SideOf(b, o.side);
    SlotSplits(o.side, s, o.price, 0);
    assert !Better(o.side, s[i].price, s[0].price);
    assert Inserted(s, o)[0] == s[0];
  }

  lemma QuietMatch(b: Book)
    requires Uncrossed(b.bids, b.asks)
    ensures MatchBook(b).bids == b.bids && MatchBook(b).asks == b.asks
  {
  }

  lemma MatchTimeOrdered(b: Book)
    requires BookTimeOrdered(b)
    ensures BookTimeOrdered(MatchBook(b))
  {
    hide TimeOrdered, Residue;
    MatchShape(b.bids, b.asks);
    ResidueOrdered(b.bids, MatchBook(b).bids);
    ResidueOrdered(b.asks, MatchBook(b).asks);
  }

  lemma InsertMatchTimeOrderedIff(b: Book, o: Order)
    requires Good(b) && BookTimeOrdered(b)
    ensures BookTimeOrdered(MatchBook(Insert(b, o))) <==> NobodyLater(b, o)
  {
    hide TimeOrdered, MatchBook, WellFormed, Uncrossed, Insert;
    InsertBookTimeOrderedIff(b, o);
    if NobodyLater(b, o) {
      MatchTimeOrdered(Insert(b, o));
    } else {
      var i :| 0 <= i < |SideOf(b, o.side)| && SideOf(b, o.side)[i].price == o.price;
      SharedLevelRests(b, o, i);
      QuietMatch(Insert(b, o));
    }
  }

  /** The order that a command puts in, if it puts one in, finds nobody later at its
      price; a reinserting MODIFY is put into the book without the old order. */
  ghost predicate ArrivesInTime(b: Book, c: Command) {
    && (c.New? ==> NobodyLater(b, OrderOf(c)))
    && (c.Modify? && Live(b, c.modifyId) && !KeepsPriority(b, c.modifyId, c.newQuantity, c.newPrice) ==>
          NobodyLater(CancelIn(b, c.modifyId),
                      Order(c.modifyId, Lookup(b, c.modifyId).side, c.newPrice, c.newQuantity, c.modifyTime)))
  }

  lemma CancelTimeOrdered(b: Book, id: nat)
    requires BookTimeOrdered(b)
    ensures BookTimeOrdered(CancelIn(b, id))
  {
    hide TimeOrdered, Without;
    WithoutOrdered(b.bids, id);
    WithoutOrdered(b.asks, id);
  }

  lemma CancelGood(b: Book, id: nat)
    requires Good(b)
    ensures Good(CancelIn(b, id))
  {
    WithoutWellFormed(b, id);
  }

  lemma QuietModifyTimeOrdered(b: Book, id: nat, newQty: int, newPrice: Price, timestamp: int)
    requires BookTimeOrdered(b) && (!Live(b, id) || KeepsPriority(b, id, newQty, newPrice))
    ensures BookTimeOrdered(MatchBook(ModifyIn(b, id, newQty, newPrice, timestamp)))
  {
    hide TimeOrdered, MatchBook;
    ResizedSame(b.bids, id, newQty);
    ResizedSame(b.asks, id, newQty);
    SameOrdered(b.bids, Resized(b.bids, id, newQty));
    SameOrdered(b.asks, Resized(b.asks, id, newQty));
    MatchTimeOrdered(ModifyIn(b, id, newQty, newPrice, timestamp));
  }

  lemma NewTimeOrderedIff(b: Book, o: Order)
    requires Good(b) && BookTimeOrdered(b)
    ensures BookTimeOrdered(MatchBook(Add(b, o))) <==> NobodyLater(b, o)
  {
    InsertMatchTimeOrderedIff(b, o);
  }

  /** The exact step: list order stays time order if and only if the order that the
      command puts in finds nobody later at its price. */
  lemma StepTimeOrderedIff(b: Book, c: Command)
    requires Good(b) && BookTimeOrdered(b)
    ensures BookTimeOrdered(BookStep(b, c)) <==> ArrivesInTime(b, c)
  {
    hide BookTimeOrdered, Good, NobodyLater, MatchBook, CancelIn, Live, KeepsPriority, Insert, Add;
    if c.New? {
      NewTimeOrderedIff(b, OrderOf(c));
    } else if c.Cancel? {
      CancelTimeOrdered(b, c.cancelId);
    } else if c.Modify? {
      var id := c.modifyId;
      if Live(b, id) && !KeepsPriority(b, id, c.newQuantity, c.newPrice) {
        CancelTimeOrdered(b, id);
        CancelGood(b, id);
        InsertMatchTimeOrderedIff(
          CancelIn(b, id), Order(id, Lookup(b, id).side, c.newPrice, c.newQuantity, c.modifyTime));
      } else {
        QuietModifyTimeOrdered(b, id, c.newQuantity, c.newPrice, c.modifyTime);
      }
    }
  }

  // ----- stamps alone, in whatever order they come

  ghost predicate BookStampedBy(b: Book, bound: int) {
    StampedBy(b.bids, bound) && StampedBy(b.asks, bound)
  }

  lemma InsertedStampedBy(s: seq<Order>, o: Order, bound: int)
    requires StampedBy(s, bound) && o.timestamp <= bound
    ensures StampedBy(Inserted(s, o), bound)
  {
    var k, s' := Slot(o.side, s, o.price), Inserted(s, o);
    assert forall j :: 0 <= j < |s'| ==> s'[j] == if j < k then s[j] else if j == k then o else s[j - 1];
  }

  lemma CancelStampedBy(b: Book, id: nat, bound: int)
    requires BookStampedBy(b, bound)
    ensures BookStampedBy(CancelIn(b, id), bound)
  {
    hide Pos;
  }

  lemma ModifyStampedBy(b: Book, id: nat, newQty: int, newPrice: Price, timestamp: int, bound: int)
    requires BookStampedBy(b, bound) && timestamp <= bound
    ensures BookStampedBy(ModifyIn(b, id, newQty, newPrice, timestamp), bound)
  {
    hide Pos, Inserted;
    if Live(b, id) && !KeepsPriority(b, id, newQty, newPrice) {
      var o := Order(id, Lookup(b, id).side, newPrice, newQty, timestamp);
      CancelStampedBy(b, id, bound);
      InsertedStampedBy(SideOf(CancelIn(b, id), o.side), o, bound);
    }
  }

  lemma StepStampedBy(b: Book, c: Command, bound: int)
    requires BookStampedBy(b, bound) && (Matches(c) ==> Stamp(c) <= bound)
    ensures BookStampedBy(BookStep(b, c), bound)
  {
    hide StampedBy, Residue, Inserted, CancelIn, ModifyIn;
    var e, b' := Effect(b, c), BookStep(b, c);
    if c.New? {
      InsertedStampedBy(SideOf(b, c.side), OrderOf(c), bound);
    } else if c.Cancel? {
      CancelStampedBy(b, c.cancelId, bound);
    } else if c.Modify? {
      ModifyStampedBy(b, c.modifyId, c.newQuantity, c.newPrice, c.modifyTime, bound);
    }
    if Matches(c) {
      MatchShape(e.bids, e.asks);
      ResidueOrdered(e.bids, b'.bids);
      ResidueOrdered(e.asks, b'.asks);
    }
  }

  /** No resting order is stamped later than the latest command, even when the
      clock has gone back and forth, and whatever the ids. */
  lemma {:induction false} RunStampedBy(cs: seq<Command>, bound: int)
    requires forall i :: 0 <= i < |cs| && Matches(cs[i]) ==> Stamp(cs[i]) <= bound
    ensures BookStampedBy(BookRun(cs), bound)
  {
    if cs != [] {
      RunStampedBy(cs[..|cs| - 1], bound);
      StepStampedBy(BookRun(cs[..|cs| - 1]), cs[|cs| - 1], bound);
    }
  }

  // ----- MODIFY

  lemma WithoutResized(s: seq<Order>, id: nat, q: int)
    requires DistinctIds(s)
    ensures Without(Resized(s, id, q), id) == Without(s, id)
    ensures Pos(Resized(s, id, q), id) == Pos(s, id)
  {
    hide Pos;
    var k := Pos(s, id);
    if k < |s| {
      assert forall j :: 0 <= j < k ==> Resized(s, id, q)[j] == s[j];
    }
  }

  /** In every case the other orders keep their places relative to each other. */
  lemma ModifyMovesNobodyElse(b: Book, id: nat, newQty: int, newPrice: Price, timestamp: int)
    requires WellFormed(b)
    ensures CancelIn(ModifyIn(b, id, newQty, newPrice, timestamp), id) == CancelIn(b, id)
  {
    if KeepsPriority(b, id, newQty, newPrice) {
      WithoutResized(b.bids, id, newQty);
      WithoutResized(b.asks, id, newQty);
    } else if Live(b, id) {
      CancelledIsGone(b, id);
      var o := Order(id, Lookup(b, id).side, newPrice, newQty, timestamp);
      WithoutInserted(SideOf(CancelIn(b, id), o.side), o);
    }
  }

  /** What any accepted MODIFY makes of its order: it always has the new price and
      the new quantity, and the old stamp just for a decrease at its own price. */
  lemma ModifiedOrder(b: Book, id: nat, newQty: int, newPrice: Price, timestamp: int)
    requires WellFormed(b) && Live(b, id)
    ensures var o, b' := Lookup(b, id), ModifyIn(b, id, newQty, newPrice, timestamp);
            && Live(b', id)
            && Lookup(b', id) == Order(id, o.side, newPrice, newQty,
                 if newPrice == o.price && newQty < o.quantity then o.timestamp else timestamp)
  {
    hide Pos, ModifyIn;
    var o, b' := Lookup(b, id), ModifyIn(b, id, newQty, newPrice, timestamp);
    LookupSide(b, id);
    LookupFields(b, id);
    ModifyWellFormed(b, id, newQty, newPrice, timestamp);
    if newPrice == o.price && newQty < o.quantity {
      DecreaseKeepsPlace(b, id, newQty, newPrice, timestamp);
      var s := SideOf(b, o.side);
      var t := s[Pos(s, id) := o.(quantity := newQty)];
      PosIs(t, Pos(s, id));
    } else {
      ReinsertGoesLast(b, id, newQty, newPrice, timestamp);
    }
    HasIsLookup(b', o.side, id);
  }

  lemma HasIsLookup(b: Book, side: Side, id: nat)
    requires WellFormed(b) && Has(SideOf(b, side), id)
    ensures Live(b, id) && Lookup(b, id) == SideOf(b, side)[Pos(SideOf(b, side), id)]
  {
    HasOnce(b, id);
  }

  /** A NEW enters the book just as it was asked for. */
  lemma NewOrder(b: Book, c: Command)
    requires WellFormed(b) && c.New? && !Live(b, c.orderId)
    ensures var b' := Effect(b, c);
            && Live(b', c.orderId)
            && Lookup(b', c.orderId) == Order(c.orderId, c.side, c.price, c.quantity, c.timestamp)
  {
    hide Pos, Inserted;
    EffectWellFormed(b, c);
    LastAtItsLevel(SideOf(b, c.side), OrderOf(c));
    HasIsLookup(Effect(b, c), c.side, c.orderId);
  }

  /** A same-price decrease keeps place and stamp. */
  lemma DecreaseKeepsPlace(b: Book, id: nat, newQty: int, newPrice: Price, timestamp: int)
    requires WellFormed(b) && Live(b, id)
    requires newPrice == Lookup(b, id).price && newQty < Lookup(b, id).quantity
    ensures var o := Lookup(b, id);
            var s := SideOf(b, o.side);
            SideOf(ModifyIn(b, id, newQty, newPrice, timestamp), o.side) == s[Pos(s, id) := o.(quantity := newQty)]
  {
    hide WellFormed, Pos;
    LookupSide(b, id);
  }

  /** Every other accepted MODIFY puts the order, restamped, behind everyone at
      its price or better. */
  lemma ReinsertGoesLast(b: Book, id: nat, newQty: int, newPrice: Price, timestamp: int)
    requires WellFormed(b) && Live(b, id)
    requires newPrice != Lookup(b, id).price || newQty >= Lookup(b, id).quantity
    ensures var side := Lookup(b, id).side;
            var t := SideOf(ModifyIn(b, id, newQty, newPrice, timestamp), side);
            && Has(t, id)
            && t[Pos(t, id)] == Order(id, side, newPrice, newQty, timestamp)
            && (forall j :: Pos(t, id) < j < |t| ==> Better(side, newPrice, t[j].price))
  {
    var o := Order(id, Lookup(b, id).side, newPrice, newQty, timestamp);
    var s := SideOf(CancelIn(b, id), o.side);
    CancelledIsGone(b, id);
    WithoutWellFormed(b, id);
    LastAtItsLevel(s, o);
  }

  lemma LastAtItsLevel(s: seq<Order>, o: Order)
    requires Sorted(o.side, s) && !Has(s, o.orderId)
    ensures var t := Inserted(s, o);
            && Has(t, o.orderId)
            && t[Pos(t, o.orderId)] == o
            && (forall j :: Pos(t, o.orderId) < j < |t| ==> Better(o.side, o.price, t[j].price))
  {
    WithoutInserted(s, o);
    forall j | Slot(o.side, s, o.price) < j <= |s| ensures Better(o.side, o.price, Inserted(s, o)[j].price) {
      SlotSplits(o.side, s, o.price, j - 1);
    }
  }

  /** Equal price and equal quantity is not a decrease: in every book the order
      is restamped and everything behind it is then strictly worse priced. */
  lemma UnchangedModifyLosesPriority(b: Book, id: nat, timestamp: int)
    requires WellFormed(b) && Live(b, id)
    ensures var o := Lookup(b, id);
            var t := SideOf(ModifyIn(b, id, o.quantity, o.price, timestamp), o.side);
            && Has(t, id)
            && t[Pos(t, id)] == o.(timestamp := timestamp)
            && (forall j :: Pos(t, id) < j < |t| ==> Better(o.side, o.price, t[j].price))
  {
    hide WellFormed, Pos, ModifyIn;
    var o := Lookup(b, id);
    LookupSide(b, id);
    LookupFields(b, id);
    ReinsertGoesLast(b, id, o.quantity, o.price, timestamp);
  }

  lemma LookupFields(b: Book, id: nat)
    requires Live(b, id)
    ensures var o := Lookup(b, id); o == Order(id, o.side, o.price, o.quantity, o.timestamp)
  {
  }

  /** The exact condition: a MODIFY leaves the order at its place in its queue if
      and only if it is a same-price decrease, or nobody in front of it is worse
      than the new price and everybody behind it is. */
  lemma ModifyKeepsPlaceIff(b: Book, id: nat, newQty: int, newPrice: Price, timestamp: int)
    requires WellFormed(b) && Live(b, id)
    ensures var side := Lookup(b, id).side;
            var s, t := SideOf(b, side), SideOf(ModifyIn(b, id, newQty, newPrice, timestamp), side);
            Pos(t, id) == Pos(s, id) <==>
              || (newPrice == Lookup(b, id).price && newQty < Lookup(b, id).quantity)
              || forall j :: 0 <= j < |s| && j != Pos(s, id) ==>
                   (Better(side, newPrice, s[j].price) <==> Pos(s, id) < j)
  {
    hide Pos;
    LookupSide(b, id);
    var side := Lookup(b, id).side;
    var s := SideOf(b, side);
    if KeepsPriority(b, id, newQty, newPrice) {
      WithoutResized(s, id, newQty);
    } else {
      var k, rest := Pos(s, id), Without(s, id);
      CancelledIsGone(b, id);
      WithoutWellFormed(b, id);
      WithoutInserted(rest, Order(id, side, newPrice, newQty, timestamp));
      SlotAmongOthers(side, s, k, newPrice);
    }
  }

  /** An order removed from place `k` would return to it at price `p` just when
      the others on either side of it compare so with `p`. */
  lemma SlotAmongOthers(side: Side, s: seq<Order>, k: nat, p: Price)
    requires k < |s| && Sorted(side, Dropped(s, k))
    ensures Slot(side, Dropped(s, k), p) == k <==>
      forall j :: 0 <= j < |s| && j != k ==> (Better(side, p, s[j].price) <==> k < j)
  {
    var rest := Dropped(s, k);
    forall j | 0 <= j < |s| && j != k
      ensures Better(side, p, s[j].price) <==> Slot(side, rest, p) <= (if j < k then j else j - 1)
    {
      var m := if j < k then j else j - 1;
      assert rest[m] == s[j];
      SlotSplits(side, rest, p, m);
    }
    if Slot(side, rest, p) < k {
      assert s[Slot(side, rest, p)] == rest[Slot(side, rest, p)];
    } else if k < Slot(side, rest, p) {
      assert s[k + 1] == rest[k];
    }
  }

  // ----- CANCEL

  /** CANCEL undoes an unmatched NEW, statistics apart. */
  lemma CancelUndoesAdd(b: Book, o: Order)
    requires !Live(b, o.orderId)
    ensures CancelIn(Add(b, o), o.orderId) == b.(stats := Add(b, o).stats)
  {
    WithoutInserted(SideOf(b, o.side), o);
  }

  lemma DroppedCommutes<T>(s: seq<T>, i: nat, j: nat)
    requires i < j < |s|
    ensures Dropped(Dropped(s, j), i) == Dropped(Dropped(s, i), j - 1)
  {
  }

  lemma WithoutBoth(s: seq<Order>, x: nat, y: nat)
    requires DistinctIds(s) && Pos(s, x) < Pos(s, y) < |s|
    ensures Without(Without(s, x), y) == Dropped(Dropped(s, Pos(s, x)), Pos(s, y) - 1)
    ensures Without(Without(s, y), x) == Dropped(Dropped(s, Pos(s, y)), Pos(s, x))
  {
    WithoutPos(s, x, y);
    WithoutPos(s, y, x);
  }

  lemma WithoutCommutes(s: seq<Order>, x: nat, y: nat)
    requires DistinctIds(s)
    ensures Without(Without(s, x), y) == Without(Without(s, y), x)
  {
    if !Has(s, x) || !Has(s, y) {
      WithoutHas(s, x, y);
      WithoutHas(s, y, x);
    } else if Pos(s, x) < Pos(s, y) {
      WithoutBoth(s, x, y);
      DroppedCommutes(s, Pos(s, x), Pos(s, y));
    } else if Pos(s, y) < Pos(s, x) {
      WithoutBoth(s, y, x);
      DroppedCommutes(s, Pos(s, y), Pos(s, x));
    }
  }

  lemma WithoutPos(s: seq<Order>, gone: nat, id: nat)
    requires DistinctIds(s) && gone != id
    ensures Has(Without(s, gone), id) <==> Has(s, id)
    ensures Has(s, id) ==>
      Pos(Without(s, gone), id) == if Pos(s, gone) < Pos(s, id) then Pos(s, id) - 1 else Pos(s, id)
  {
    hide Pos;
    WithoutHas(s, gone, id);
    if Has(s, id) {
      var t, m, g := Without(s, gone), Pos(s, id), Pos(s, gone);
      var m' := if g < m then m - 1 else m;
      assert t[m'] == s[m];
      forall j | 0 <= j < m' ensures t[j].orderId != id {
        assert t[j] == s[if j < g then j else j + 1];
      }
    }
  }

  lemma CancelsCommute(b: Book, x: nat, y: nat)
    requires WellFormed(b)
    ensures CancelIn(CancelIn(b, x), y) == CancelIn(CancelIn(b, y), x)
  {
    WithoutCommutes(b.bids, x, y);
    WithoutCommutes(b.asks, x, y);
  }
}
