/** Accounting over whole runs of one book: order counts, the trade tape and a
    quantity ledger per side. Any integer quantities. */
module Ledgers {
  import opened Orders
  import opened BookSpec
  import opened Matching
  import opened BookRuns

  function LiveCount(b: Book): nat {
    |b.bids| + |b.asks|
  }

  // ----- counts

  lemma EffectCount(b: Book, c: Command)
    requires WellFormed(b)
    ensures LiveCount(Effect(b, c)) <= LiveCount(b) + (if c.New? then 1 else 0)
    ensures Effect(b, c).stats == b.stats.(totalOrders := b.stats.totalOrders + (if c.New? then 1 else 0))
  {
    if c.Modify? && Live(b, c.modifyId) {
      HasOnce(b, c.modifyId);
    }
  }

  /** Each trade costs the book an order: live orders plus trades never exceed
      the orders submitted, and at least one order always escapes being matched away. */
  ghost predicate Amortised(b: Book) {
    && LiveCount(b) + b.stats.totalTrades <= b.stats.totalOrders
    && (b.stats.totalOrders > 0 ==> b.stats.totalTrades <= b.stats.totalOrders - 1)
  }

  lemma StepAmortised(b: Book, c: Command)
    requires WellFormed(b) && Amortised(b)
    ensures Amortised(BookStep(b, c))
  {
    EffectCount(b, c);
    MatchShape(Effect(b, c).bids, Effect(b, c).asks);
  }

  lemma {:induction false} RunAmortised(cs: seq<Command>)
    requires FreshIds(cs)
    ensures Amortised(BookRun(cs))
  {
    if cs != [] {
      NewIsFresh(cs);
      RunGood(cs[..|cs| - 1]);
      RunAmortised(cs[..|cs| - 1]);
      StepAmortised(BookRun(cs[..|cs| - 1]), cs[|cs| - 1]);
    }
  }

  function NewCount(cs: seq<Command>): nat {
    if cs == [] then 0 else NewCount(cs[..|cs| - 1]) + (if cs[|cs| - 1].New? then 1 else 0)
  }

  lemma {:induction false} VolumeConcat(a: seq<Trade>, b: seq<Trade>)
    ensures Volume(a + b) == Volume(a) + Volume(b)
  {
    if a == [] {
      assert a + b == b;
    } else {
      VolumeConcat(a[1..], b);
      assert (a + b)[1..] == a[1..] + b;
    }
  }

  /** The statistics are exactly a summary of the run's own output. */
  lemma {:induction false} StatsSummarise(cs: seq<Command>)
    requires FreshIds(cs)
    ensures BookRun(cs).stats == SymbolStats(NewCount(cs), |RunTrades(cs)|, Volume(RunTrades(cs)))
  {
    if cs != [] {
      var before, c := cs[..|cs| - 1], cs[|cs| - 1];
      NewIsFresh(cs);
      RunGood(before);
      StatsSummarise(before);
      EffectCount(BookRun(before), c);
      VolumeConcat(RunTrades(before), StepTrades(BookRun(before), c));
    }
  }

  // ----- quantities

  function SubmittedQty(side: Side, cs: seq<Command>): int {
    if cs == [] then 0
    else
      var c := cs[|cs| - 1];
      SubmittedQty(side, cs[..|cs| - 1]) + (if c.New? && c.side == side then c.quantity else 0)
  }

  /** What a MODIFY adds to the quantity resting on a side. */
  function ModifiedBy(side: Side, b: Book, c: Command): int {
    if c.Modify? && Live(b, c.modifyId) && Lookup(b, c.modifyId).side == side
    then c.newQuantity - Lookup(b, c.modifyId).quantity else 0
  }

  function CancelledBy(side: Side, b: Book, c: Command): int {
    if c.Cancel? then QtyOf(SideOf(b, side), c.cancelId) else 0
  }

  function NetModified(side: Side, cs: seq<Command>): int {
    if cs == [] then 0
    else NetModified(side, cs[..|cs| - 1]) + ModifiedBy(side, BookRun(cs[..|cs| - 1]), cs[|cs| - 1])
  }

  function Cancelled(side: Side, cs: seq<Command>): int {
    if cs == [] then 0
    else Cancelled(side, cs[..|cs| - 1]) + CancelledBy(side, BookRun(cs[..|cs| - 1]), cs[|cs| - 1])
  }

  lemma {:induction false} QtyConcat(s: seq<Order>, t: seq<Order>)
    ensures Qty(s + t) == Qty(s) + Qty(t)
  {
    if s == [] {
      assert s + t == t;
    } else {
      QtyConcat(s[1..], t);
      assert (s + t)[1..] == s[1..] + t;
    }
  }

  lemma QtySplit(s: seq<Order>, k: nat)
    requires k < |s|
    ensures Qty(s) == Qty(s[..k]) + s[k].quantity + Qty(s[k + 1..])
  {
    assert s == s[..k] + s[k..];
    QtyConcat(s[..k], s[k..]);
    assert s[k..][1..] == s[k + 1..];
  }

  lemma QtyInserted(s: seq<Order>, o: Order)
    ensures Qty(Inserted(s, o)) == Qty(s) + o.quantity
  {
    var k := Slot(o.side, s, o.price);
    QtySplit(Inserted(s, o), k);
    assert Inserted(s, o)[..k] == s[..k] && Inserted(s, o)[k + 1..] == s[k..];
    assert s == s[..k] + s[k..];
    QtyConcat(s[..k], s[k..]);
  }

  lemma QtyWithout(s: seq<Order>, id: nat)
    ensures Qty(Without(s, id)) == Qty(s) - QtyOf(s, id)
  {
    var k := Pos(s, id);
    if k < |s| {
      QtySplit(s, k);
      QtyConcat(s[..k], s[k + 1..]);
    }
  }

  lemma QtyResized(s: seq<Order>, id: nat, q: int)
    requires Has(s, id)
    ensures Qty(Resized(s, id, q)) == Qty(s) + q - QtyOf(s, id)
  {
    var k := Pos(s, id);
    QtySplit(s, k);
    QtySplit(Resized(s, id, q), k);
    assert Resized(s, id, q)[..k] == s[..k] && Resized(s, id, q)[k + 1..] == s[k + 1..];
  }

  lemma ModifyQty(side: Side, b: Book, id: nat, q: int, p: Price, ts: int)
    requires WellFormed(b) && Live(b, id)
    ensures Qty(SideOf(ModifyIn(b, id, q, p, ts), side))
         == Qty(SideOf(b, side)) + (if Lookup(b, id).side == side then q - Lookup(b, id).quantity else 0)
  {
    HasOnce(b, id);
    var o := Lookup(b, id);
    var own := SideOf(b, o.side);
    assert Has(own, id) && !Has(SideOf(b, Opposite(o.side)), id);
    if KeepsPriority(b, id, q, p) {
      QtyResized(own, id, q);
    } else {
      QtyWithout(own, id);
      QtyInserted(Without(own, id), Order(id, o.side, p, q, ts));
    }
  }

  /** The quantity a command puts on a side, net of what it takes off, before matching. */
  lemma EffectQty(side: Side, b: Book, c: Command)
    requires WellFormed(b)
    ensures Qty(SideOf(Effect(b, c), side)) == Qty(SideOf(b, side))
      + (if c.New? && c.side == side then c.quantity else 0) + ModifiedBy(side, b, c) - CancelledBy(side, b, c)
  {
    match c
    case New(_, _, _, _, _, _) => QtyInserted(SideOf(b, c.side), OrderOf(c));
    case Cancel(id) => QtyWithout(SideOf(b, side), id);
    case Modify(id, _, q, p, ts) =>
      if Live(b, id) {
        ModifyQty(side, b, id, q, p, ts);
      }
    case Stats =>
    case BookQuery(_) =>
  }

  lemma StepQty(side: Side, b: Book, c: Command)
    requires WellFormed(b) && (c.New? ==> !Live(b, c.orderId))
    ensures Qty(SideOf(BookStep(b, c), side)) == Qty(SideOf(Effect(b, c), side)) - Volume(StepTrades(b, c))
  {
    if Matches(c) {
      EffectWellFormed(b, c);
      MatchConserves(Effect(b, c).bids, Effect(b, c).asks, 0);
    }
  }

  /** Main result: on each side, everything submitted or gained by MODIFY either
      rests, was cancelled, or was traded. */
  lemma {:induction false} RunLedger(side: Side, cs: seq<Command>)
    requires FreshIds(cs)
    ensures SubmittedQty(side, cs) + NetModified(side, cs)
         == Qty(SideOf(BookRun(cs), side)) + Cancelled(side, cs) + BookRun(cs).stats.totalVolume
  {
    if cs != [] {
      var before, c := cs[..|cs| - 1], cs[|cs| - 1];
      var b := BookRun(before);
      NewIsFresh(cs);
      RunGood(before);
      RunLedger(side, before);
      EffectQty(side, b, c);
      StepQty(side, b, c);
      EffectCount(b, c);
    }
  }
}
