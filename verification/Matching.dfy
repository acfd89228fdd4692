/** What the matching loop does to any book, however deeply crossed. */
module Matching {
  import opened Orders
  import opened BookSpec

  // ----- vocabulary, independent of the loop

  function Qty(s: seq<Order>): int {
    if s == [] then 0 else s[0].quantity + Qty(s[1..])
  }

  /** Total quantity resting on a side at price `p` or better. */
  function Depth(side: Side, s: seq<Order>, p: Price): int {
    if s == [] then 0
    else (if Better(side, p, s[0].price) then 0 else s[0].quantity) + Depth(side, s[1..], p)
  }

  /** `v` is the most that any single price can clear. */
  ghost predicate IsClearingVolume(bids: seq<Order>, asks: seq<Order>, v: int) {
    && (forall p :: Min(Depth(Buy, bids, p), Depth(Sell, asks, p)) <= v)
    && (exists p :: Min(Depth(Buy, bids, p), Depth(Sell, asks, p)) == v)
  }

  /** The side after its first `v` units, in priority order, are gone. */
  function Consume(s: seq<Order>, v: int): seq<Order> {
    if s == [] || v <= 0 then s
    else if s[0].quantity <= v then Consume(s[1..], v - s[0].quantity)
    else Lessened(s, v)
  }

  /** The owner of unit `k` of a side, units being numbered in priority order. */
  function UnitOwner(s: seq<Order>, k: int): nat
    requires 0 <= k < Qty(s)
  {
    if k < s[0].quantity then s[0].orderId else UnitOwner(s[1..], k - s[0].quantity)
  }

  /** The trade that moves unit `k` of the traded volume. */
  function TradeOfUnit(trades: seq<Trade>, k: int): Trade
    requires 0 <= k < Volume(trades)
  {
    if k < trades[0].quantity then trades[0] else TradeOfUnit(trades[1..], k - trades[0].quantity)
  }

  // ----- positive quantities

  lemma DepthNonNegative(side: Side, s: seq<Order>, p: Price)
    requires Positive(s)
    ensures 0 <= Depth(side, s, p)
  {
    if s != [] {
      DepthNonNegative(side, s[1..], p);
    }
  }

  /** Beyond the best price there is nothing. */
  lemma {:induction false} NothingBeyondBest(side: Side, s: seq<Order>, p: Price)
    requires Sorted(side, s) && s != [] && Better(side, p, s[0].price)
    ensures Depth(side, s, p) == 0
  {
    if |s| > 1 {
      NothingBeyondBest(side, s[1..], p);
    }
  }

  /** Filling the front takes `q` units from every price up to the front's own. */
  lemma FillFrontFacts(side: Side, s: seq<Order>, q: int)
    requires Sorted(side, s) && Positive(s) && s != [] && 0 < q <= s[0].quantity
    ensures Sorted(side, FillFront(s, q)) && Positive(FillFront(s, q))
    ensures forall p :: Depth(side, FillFront(s, q), p)
                     == Depth(side, s, p) - (if Better(side, p, s[0].price) then 0 else q)
    ensures Qty(FillFront(s, q)) == Qty(s) - q
  {
    var s' := FillFront(s, q);
    if s[0].quantity != q {
      assert s'[1..] == s[1..];
    }
  }

  lemma ConsumeFill(s: seq<Order>, q: int, v: int)
    requires s != [] && Positive(s) && 0 < q <= s[0].quantity && 0 <= v
    ensures Consume(FillFront(s, q), v) == Consume(s, q + v)
  {
    if s[0].quantity != q {
      var s' := Lessened(s, q);
      assert s'[1..] == s[1..];
      if v < s'[0].quantity {
        assert Lessened(s', v) == Lessened(s, q + v);
      }
    }
  }

  /** One pass: the front pair trades `q`, and what remains clears the rest. */
  lemma ClearingStep(bids: seq<Order>, asks: seq<Order>, v: int)
    requires Sorted(Buy, bids) && Sorted(Sell, asks) && Positive(bids) && Positive(asks)
    requires !Uncrossed(bids, asks) && 0 <= v
    requires var q := TradeOf(bids[0], asks[0]).quantity;
             IsClearingVolume(FillFront(bids, q), FillFront(asks, q), v)
    ensures IsClearingVolume(bids, asks, TradeOf(bids[0], asks[0]).quantity + v)
  {
    var q := TradeOf(bids[0], asks[0]).quantity;
    var bids', asks' := FillFront(bids, q), FillFront(asks, q);
    FillFrontFacts(Buy, bids, q);
    FillFrontFacts(Sell, asks, q);
    forall p
      ensures asks[0].price <= p <= bids[0].price ==>
        Min(Depth(Buy, bids, p), Depth(Sell, asks, p)) == q + Min(Depth(Buy, bids', p), Depth(Sell, asks', p))
      ensures !(asks[0].price <= p <= bids[0].price) ==>
        Min(Depth(Buy, bids, p), Depth(Sell, asks, p)) <= 0 && Min(Depth(Buy, bids', p), Depth(Sell, asks', p)) <= 0
    {
      OutsideFronts(bids, asks, p);
    }
    var p :| Min(Depth(Buy, bids', p), Depth(Sell, asks', p)) == v;
    var w := if asks[0].price <= p <= bids[0].price then p else bids[0].price;
    DepthNonNegative(Buy, bids', w);
    DepthNonNegative(Sell, asks', w);
    assert Min(Depth(Buy, bids, w), Depth(Sell, asks, w)) == q + v;
  }

  lemma OutsideFronts(bids: seq<Order>, asks: seq<Order>, p: Price)
    requires Sorted(Buy, bids) && Sorted(Sell, asks) && bids != [] && asks != []
    ensures bids[0].price < p ==> Depth(Buy, bids, p) == 0
    ensures p < asks[0].price ==> Depth(Sell, asks, p) == 0
  {
    if bids[0].price < p {
      NothingBeyondBest(Buy, bids, p);
    }
    if p < asks[0].price {
      NothingBeyondBest(Sell, asks, p);
    }
  }

  lemma UncrossedClearsNothing(bids: seq<Order>, asks: seq<Order>)
    requires Sorted(Buy, bids) && Sorted(Sell, asks) && Positive(bids) && Positive(asks)
    requires Uncrossed(bids, asks)
    ensures IsClearingVolume(bids, asks, 0)
  {
    var w: Price := if bids == [] then 0.0 else bids[0].price;
    forall p
      ensures Min(Depth(Buy, bids, p), Depth(Sell, asks, p)) <= 0
      ensures p == w ==> Min(Depth(Buy, bids, p), Depth(Sell, asks, p)) == 0
    {
      DepthNonNegative(Buy, bids, p);
      DepthNonNegative(Sell, asks, p);
      if bids != [] && asks != [] {
        OutsideFronts(bids, asks, p);
      }
    }
    assert Min(Depth(Buy, bids, w), Depth(Sell, asks, w)) == 0;
  }

  /** Main result: matching trades exactly the clearing volume, and each side
      loses exactly its first units in price-time order. */
  lemma {:induction false} MatchClears(bids: seq<Order>, asks: seq<Order>)
    requires Sorted(Buy, bids) && Sorted(Sell, asks) && Positive(bids) && Positive(asks)
    ensures var r := MatchSides(bids, asks);
            var v := Volume(r.trades);
            && 0 <= v && IsClearingVolume(bids, asks, v)
            && r.bids == Consume(bids, v) && r.asks == Consume(asks, v)
    decreases |bids| + |asks|
  {
    if Uncrossed(bids, asks) {
      UncrossedClearsNothing(bids, asks);
    } else {
      var q := TradeOf(bids[0], asks[0]).quantity;
      FillFrontFacts(Buy, bids, q);
      FillFrontFacts(Sell, asks, q);
      var r := MatchSides(FillFront(bids, q), FillFront(asks, q));
      var v := Volume(r.trades);
      MatchClears(FillFront(bids, q), FillFront(asks, q));
      ClearingStep(bids, asks, v);
      ConsumeFill(bids, q, v);
      ConsumeFill(asks, q, v);
    }
  }

  /** The traded volume is the clearing volume, and nothing else is. */
  lemma ClearingVolumeIsTraded(bids: seq<Order>, asks: seq<Order>, v: int)
    requires Sorted(Buy, bids) && Sorted(Sell, asks) && Positive(bids) && Positive(asks)
    ensures IsClearingVolume(bids, asks, v) <==> v == Volume(MatchSides(bids, asks).trades)
  {
    hide MatchSides, Volume, Depth, Sorted, Positive, Consume;
    MatchClears(bids, asks);
  }

  /** Price-time priority, unit by unit: unit `k` of the volume passes between
      the owners of the `k`-th units of the two queues. */
  lemma {:induction false} UnitPairing(bids: seq<Order>, asks: seq<Order>, k: int)
    requires Sorted(Buy, bids) && Sorted(Sell, asks) && Positive(bids) && Positive(asks)
    requires 0 <= k < Volume(MatchSides(bids, asks).trades)
    ensures k < Qty(bids) && k < Qty(asks)
    ensures var t := TradeOfUnit(MatchSides(bids, asks).trades, k);
            t.buyer == UnitOwner(bids, k) && t.seller == UnitOwner(asks, k)
    decreases |bids| + |asks|
  {
    var q := TradeOf(bids[0], asks[0]).quantity;
    var bids', asks' := FillFront(bids, q), FillFront(asks, q);
    FillFrontFacts(Buy, bids, q);
    FillFrontFacts(Sell, asks, q);
    assert MatchSides(bids, asks).trades[1..] == MatchSides(bids', asks').trades;
    if k < q {
      QtyNonNegative(bids');
      QtyNonNegative(asks');
    } else {
      UnitPairing(bids', asks', k - q);
      UnitShift(bids, q, k);
      UnitShift(asks, q, k);
    }
  }

  lemma QtyNonNegative(s: seq<Order>)
    requires Positive(s)
    ensures 0 <= Qty(s)
  {
    if s != [] {
      QtyNonNegative(s[1..]);
    }
  }

  lemma UnitShift(s: seq<Order>, q: int, k: int)
    requires Positive(s) && s != [] && 0 < q <= s[0].quantity && q <= k
    requires k - q < Qty(FillFront(s, q))
    ensures k < Qty(s) && UnitOwner(s, k) == UnitOwner(FillFront(s, q), k - q)
  {
    if s[0].quantity != q {
      assert FillFront(s, q)[1..] == s[1..];
    }
  }

  // ----- any integer quantities, zero and negative included

  /** `t` is a tail of `s` in which only the front order's quantity may differ. */
  ghost predicate Residue(s: seq<Order>, t: seq<Order>) {
    && |t| <= |s|
    && forall k :: 0 <= k < |t| ==>
         t[k] == if k == 0 then s[|s| - |t|].(quantity := t[0].quantity) else s[|s| - |t| + k]
  }

  lemma ResidueTrans(s: seq<Order>, t: seq<Order>, u: seq<Order>)
    requires Residue(s, t) && Residue(t, u)
    ensures Residue(s, u)
  {
    assert forall k :: 0 < k < |u| ==> u[k] == t[|t| - |u| + k];
  }

  lemma FillResidue(s: seq<Order>, q: int)
    requires s != []
    ensures Residue(s, FillFront(s, q))
  {
  }

  /** For every book and every integer quantity the loop ends uncrossed, only
      ever shortens the queues from the front, removes at least one order per
      trade, and trades at most one less than the number of orders. */
  lemma {:induction false} MatchShape(bids: seq<Order>, asks: seq<Order>)
    ensures var r := MatchSides(bids, asks);
            && Uncrossed(r.bids, r.asks)
            && Residue(bids, r.bids) && Residue(asks, r.asks)
            && |r.bids| + |r.asks| + |r.trades| <= |bids| + |asks|
            && (r.trades != [] ==> |r.trades| <= |bids| + |asks| - 1)
            && (r.trades == [] <==> Uncrossed(bids, asks))
    decreases |bids| + |asks|
  {
    if !Uncrossed(bids, asks) {
      var q := TradeOf(bids[0], asks[0]).quantity;
      var bids', asks' := FillFront(bids, q), FillFront(asks, q);
      MatchShape(bids', asks');
      FillResidue(bids, q);
      FillResidue(asks, q);
      var r := MatchSides(bids', asks');
      ResidueTrans(bids, bids', r.bids);
      ResidueTrans(asks, asks', r.asks);
    }
  }

  lemma ResidueSideOk(side: Side, s: seq<Order>, t: seq<Order>)
    requires SideOk(side, s) && Residue(s, t)
    ensures SideOk(side, t)
  {
    assert forall k :: 0 <= k < |t| ==> t[k] == s[|s| - |t| + k].(quantity := t[k].quantity);
  }

  lemma ResidueHas(s: seq<Order>, t: seq<Order>, id: nat)
    requires Residue(s, t) && Has(t, id)
    ensures Has(s, id)
  {
    var k := Pos(t, id);
    assert s[|s| - |t| + k].orderId == id;
  }

  lemma ResidueDisjoint(s: seq<Order>, t: seq<Order>, s': seq<Order>, t': seq<Order>)
    requires DisjointIds(s, t) && Residue(s, s') && Residue(t, t')
    ensures DisjointIds(s', t')
  {
    forall i, j | 0 <= i < |s'| && 0 <= j < |t'| ensures s'[i].orderId != t'[j].orderId {
      assert s'[i].orderId == s[|s| - |s'| + i].orderId;
      assert t'[j].orderId == t[|t| - |t'| + j].orderId;
    }
  }

  lemma MatchWellFormed(b: Book)
    requires WellFormed(b)
    ensures WellFormed(MatchBook(b))
    ensures forall id :: Live(MatchBook(b), id) ==> Live(b, id)
  {
    hide MatchSides, Residue, DisjointIds, DistinctIds, Sorted, OnSide, Has;
    var b' := MatchBook(b);
    MatchShape(b.bids, b.asks);
    ResidueSideOk(Buy, b.bids, b'.bids);
    ResidueSideOk(Sell, b.asks, b'.asks);
    ResidueDisjoint(b.bids, b.asks, b'.bids, b'.asks);
    forall id | Live(b', id) ensures Live(b, id) {
      if Has(b'.bids, id) {
        ResidueHas(b.bids, b'.bids, id);
      } else {
        ResidueHas(b.asks, b'.asks, id);
      }
    }
  }

  // ----- conservation

  function Bought(trades: seq<Trade>, id: nat): int {
    if trades == [] then 0 else (if trades[0].buyer == id then trades[0].quantity else 0) + Bought(trades[1..], id)
  }

  function Sold(trades: seq<Trade>, id: nat): int {
    if trades == [] then 0 else (if trades[0].seller == id then trades[0].quantity else 0) + Sold(trades[1..], id)
  }

  function QtyOf(s: seq<Order>, id: nat): int {
    if Has(s, id) then s[Pos(s, id)].quantity else 0
  }

  lemma FillFrontQty(s: seq<Order>, q: int, id: nat)
    requires s != [] && DistinctIds(s)
    ensures DistinctIds(FillFront(s, q))
    ensures Qty(FillFront(s, q)) == Qty(s) - q
    ensures QtyOf(FillFront(s, q), id) == QtyOf(s, id) - (if s[0].orderId == id then q else 0)
  {
    var s' := FillFront(s, q);
    if s[0].quantity != q {
      assert s'[1..] == s[1..];
    } else if s[0].orderId == id {
      forall j | 0 <= j < |s'| ensures s'[j].orderId != id {
        assert s'[j] == s[j + 1];
      }
    }
  }

  /** Every order's quantity before matching is its fills plus what remains, and
      each side loses the traded volume. Any integer quantities. */
  lemma {:induction false} MatchConserves(bids: seq<Order>, asks: seq<Order>, id: nat)
    requires DistinctIds(bids) && DistinctIds(asks)
    ensures var r := MatchSides(bids, asks);
            && QtyOf(bids, id) == Bought(r.trades, id) + QtyOf(r.bids, id)
            && QtyOf(asks, id) == Sold(r.trades, id) + QtyOf(r.asks, id)
            && Qty(bids) == Volume(r.trades) + Qty(r.bids)
            && Qty(asks) == Volume(r.trades) + Qty(r.asks)
    decreases |bids| + |asks|
  {
    if !Uncrossed(bids, asks) {
      var q := TradeOf(bids[0], asks[0]).quantity;
      FillFrontQty(bids, q, id);
      FillFrontQty(asks, q, id);
      MatchConserves(FillFront(bids, q), FillFront(asks, q), id);
      assert MatchSides(bids, asks).trades[1..] == MatchSides(FillFront(bids, q), FillFront(asks, q)).trades;
    }
  }

  /** Every trade joins a resting bid and a resting ask whose limits it respects. */
  lemma {:induction false} TradeWithinLimits(bids: seq<Order>, asks: seq<Order>, i: nat) returns (m: nat, n: nat)
    requires i < |MatchSides(bids, asks).trades|
    ensures m < |bids| && n < |asks|
    ensures var t := MatchSides(bids, asks).trades[i];
            && t.buyer == bids[m].orderId && t.seller == asks[n].orderId
            && asks[n].price <= t.price <= bids[m].price
            && t.price == (if bids[m].timestamp <= asks[n].timestamp then bids[m].price else asks[n].price)
    decreases |bids| + |asks|
  {
    if i == 0 {
      m, n := 0, 0;
    } else {
      var q := TradeOf(bids[0], asks[0]).quantity;
      m, n := TradeWithinLimits(FillFront(bids, q), FillFront(asks, q), i - 1);
      m := if bids[0].quantity == q then m + 1 else m;
      n := if asks[0].quantity == q then n + 1 else n;
    }
  }

  lemma FillFrontAt(s: seq<Order>, q: int, k: nat)
    requires s != [] && DistinctIds(s) && k < |FillFront(s, q)|
    ensures var m := if s[0].quantity == q then k + 1 else k;
            && m < |s| && FillFront(s, q)[k].orderId == s[m].orderId
            && FillFront(s, q)[k].quantity == s[m].quantity - (if s[0].orderId == s[m].orderId then q else 0)
  {
  }

  lemma FillFrontLength(s: seq<Order>, q: int)
    requires s != []
    ensures |FillFront(s, q)| == |s| - (if s[0].quantity == q then 1 else 0)
  {
  }

  lemma FilledFirst(trades: seq<Trade>, i: nat, id: nat)
    requires 0 < i <= |trades|
    ensures Bought(trades[..i], id) ==
            (if trades[0].buyer == id then trades[0].quantity else 0) + Bought(trades[1..][..i - 1], id)
    ensures Sold(trades[..i], id) ==
            (if trades[0].seller == id then trades[0].quantity else 0) + Sold(trades[1..][..i - 1], id)
  {
    assert trades[..i][1..] == trades[1..][..i - 1];
  }

  /** Every trade is for all that earlier trades have left of the smaller of its two
      orders, so it uses one of them up. Any integer quantities. */
  lemma {:induction false} TradeUsesUp(bids: seq<Order>, asks: seq<Order>, i: nat) returns (m: nat, n: nat)
    requires DistinctIds(bids) && DistinctIds(asks) && i < |MatchSides(bids, asks).trades|
    ensures m < |bids| && n < |asks|
    ensures var trades := MatchSides(bids, asks).trades;
            && trades[i].buyer == bids[m].orderId && trades[i].seller == asks[n].orderId
            && trades[i].quantity == Min(bids[m].quantity - Bought(trades[..i], bids[m].orderId),
                                         asks[n].quantity - Sold(trades[..i], asks[n].orderId))
    decreases |bids| + |asks|
  {
    hide DistinctIds, FillFront, Bought, Sold;
    var trades := MatchSides(bids, asks).trades;
    var q := TradeOf(bids[0], asks[0]).quantity;
    if i == 0 {
      m, n := 0, 0;
      NothingFilled(bids[0].orderId);
      NothingFilled(asks[0].orderId);
      assert trades[..0] == [];
    } else {
      var bids', asks' := FillFront(bids, q), FillFront(asks, q);
      FillFrontQty(bids, q, 0);
      FillFrontQty(asks, q, 0);
      FillFrontLength(bids, q);
      FillFrontLength(asks, q);
      assert trades[1..] == MatchSides(bids', asks').trades;
      m, n := TradeUsesUp(bids', asks', i - 1);
      FillFrontAt(bids, q, m);
      FillFrontAt(asks, q, n);
      m := if bids[0].quantity == q then m + 1 else m;
      n := if asks[0].quantity == q then n + 1 else n;
      FilledFirst(trades, i, bids[m].orderId);
      FilledFirst(trades, i, asks[n].orderId);
    }
  }

  lemma NothingFilled(id: nat)
    ensures Bought([], id) == 0 && Sold([], id) == 0
  {
  }
}
