/** One book under the dispatcher's discipline: NEW and MODIFY are followed by
    matching, CANCEL is not. What every run of commands keeps. */
module BookRuns {
  import opened Orders
  import opened BookSpec
  import opened Matching

  function OrderOf(c: Command): Order
    requires c.New?
  {
    Order(c.orderId, c.side, c.price, c.quantity, c.timestamp)
  }

  /** The command's own effect, before matching. */
  function Effect(b: Book, c: Command): Book {
    match c
    case New(_, _, _, _, _, _) => Add(b, OrderOf(c))
    case Cancel(id) => CancelIn(b, id)
    case Modify(id, _, q, p, ts) => ModifyIn(b, id, q, p, ts)
    case Stats => b
    case BookQuery(_) => b
  }

  predicate Matches(c: Command) {
    c.New? || c.Modify?
  }

  function BookStep(b: Book, c: Command): Book {
    if Matches(c) then MatchBook(Effect(b, c)) else Effect(b, c)
  }

  function StepTrades(b: Book, c: Command): seq<Trade> {
    if Matches(c) then MatchTrades(Effect(b, c)) else []
  }

  function BookRun(cs: seq<Command>): Book {
    if cs == [] then EMPTY_BOOK else BookStep(BookRun(cs[..|cs| - 1]), cs[|cs| - 1])
  }

  function RunTrades(cs: seq<Command>): seq<Trade> {
    if cs == [] then []
    else RunTrades(cs[..|cs| - 1]) + StepTrades(BookRun(cs[..|cs| - 1]), cs[|cs| - 1])
  }

  /** Every NEW carries an id no other NEW carries. */
  ghost predicate FreshIds(cs: seq<Command>) {
    forall i, j :: 0 <= i < j < |cs| && cs[i].New? && cs[j].New? ==> cs[i].orderId != cs[j].orderId
  }

  ghost predicate Submitted(cs: seq<Command>, id: nat) {
    exists i :: 0 <= i < |cs| && cs[i].New? && cs[i].orderId == id
  }

  // ----- the state invariant

  ghost predicate Good(b: Book) {
    WellFormed(b) && Uncrossed(b.bids, b.asks)
  }

  lemma AddLive(b: Book, o: Order, id: nat)
    ensures Live(Insert(b, o), id) <==> Live(b, id) || id == o.orderId
  {
    InsertedHas(SideOf(b, o.side), o, id);
  }

  lemma CancelLive(b: Book, gone: nat, id: nat)
    requires WellFormed(b)
    ensures Live(CancelIn(b, gone), id) <==> Live(b, id) && id != gone
  {
    WithoutHas(b.bids, gone, id);
    WithoutHas(b.asks, gone, id);
  }

  lemma ResizedSame(s: seq<Order>, id: nat, q: int)
    ensures SameButQuantity(s, Resized(s, id, q))
  {
  }

  lemma ModifyWellFormed(b: Book, id: nat, newQty: int, newPrice: Price, timestamp: int)
    requires WellFormed(b)
    ensures WellFormed(ModifyIn(b, id, newQty, newPrice, timestamp))
    ensures forall x :: Live(ModifyIn(b, id, newQty, newPrice, timestamp), x) <==> Live(b, x)
  {
    var b' := ModifyIn(b, id, newQty, newPrice, timestamp);
    if KeepsPriority(b, id, newQty, newPrice) {
      ResizedSame(b.bids, id, newQty);
      ResizedSame(b.asks, id, newQty);
      RequantifiedWellFormed(b, b');
      forall x ensures Live(b', x) <==> Live(b, x) {
        SameHas(b.bids, b'.bids, x);
        SameHas(b.asks, b'.asks, x);
      }
    } else if Live(b, id) {
      var o := Order(id, Lookup(b, id).side, newPrice, newQty, timestamp);
      WithoutWellFormed(b, id);
      CancelledIsGone(b, id);
      InsertWellFormed(CancelIn(b, id), o);
      forall x ensures Live(b', x) <==> Live(b, x) {
        CancelLive(b, id, x);
        AddLive(CancelIn(b, id), o, x);
      }
    }
  }

  lemma EffectWellFormed(b: Book, c: Command)
    requires WellFormed(b) && (c.New? ==> !Live(b, c.orderId))
    ensures WellFormed(Effect(b, c))
    ensures forall id :: Live(Effect(b, c), id) ==> Live(b, id) || (c.New? && id == c.orderId)
  {
    match c
    case New(_, _, _, _, _, _) =>
      InsertWellFormed(b, OrderOf(c));
      forall id ensures Live(Effect(b, c), id) ==> Live(b, id) || id == c.orderId {
        AddLive(b, OrderOf(c), id);
      }
    case Cancel(gone) =>
      WithoutWellFormed(b, gone);
      forall id ensures Live(Effect(b, c), id) ==> Live(b, id) {
        CancelLive(b, gone, id);
      }
    case Modify(id, _, q, p, ts) => ModifyWellFormed(b, id, q, p, ts);
    case Stats =>
    case BookQuery(_) =>
  }

  /** One dispatched command keeps the book well formed and uncrossed. */
  lemma StepGood(b: Book, c: Command)
    requires Good(b) && (c.New? ==> !Live(b, c.orderId))
    ensures Good(BookStep(b, c))
    ensures forall id :: Live(BookStep(b, c), id) ==> Live(b, id) || (c.New? && id == c.orderId)
  {
    EffectWellFormed(b, c);
    if Matches(c) {
      MatchWellFormed(Effect(b, c));
      MatchShape(Effect(b, c).bids, Effect(b, c).asks);
    }
  }

  /** After every run with fresh ids, no book is crossed and only submitted ids rest. */
  lemma {:induction false} RunGood(cs: seq<Command>)
    requires FreshIds(cs)
    ensures Good(BookRun(cs))
    ensures forall id :: Live(BookRun(cs), id) ==> Submitted(cs, id)
  {
    if cs != [] {
      var before, c := cs[..|cs| - 1], cs[|cs| - 1];
      RunGood(before);
      NewIsFresh(cs);
      StepGood(BookRun(before), c);
      forall id | Live(BookRun(cs), id) ensures Submitted(cs, id) {
        if Live(BookRun(before), id) {
          var i :| 0 <= i < |before| && before[i].New? && before[i].orderId == id;
          assert cs[i] == before[i];
        } else {
          assert cs[|cs| - 1].orderId == id;
        }
      }
    }
  }

  /** The id of the last NEW of a run was not submitted before. */
  lemma NewIsFresh(cs: seq<Command>)
    requires FreshIds(cs) && cs != []
    ensures FreshIds(cs[..|cs| - 1])
    ensures cs[|cs| - 1].New? ==> !Submitted(cs[..|cs| - 1], cs[|cs| - 1].orderId)
  {
  }
}
