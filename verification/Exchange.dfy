/** The exchange in the heap: one OrderBook object per symbol and the routing
    index, with the dispatch loop that the matching thread runs. */
module Exchanges {
  import opened Orders
  import opened BookSpec
  import opened OrderBooks
  import Spec = ExchangeSpec

  class Exchange {
    var books: map<Symbol, OrderBook>
    var orderSymbolMap: map<nat, Symbol>

    ghost var views: map<Symbol, Book>
    ghost var Repr: set<object>

    /** Every book is described by `views` and shares nothing with the others. */
    ghost predicate Layout()
      reads this`books, this`views, this`Repr, Repr
    {
      && this !in Repr
      && views.Keys == books.Keys
      && (forall s :: s in books ==>
            && books[s] in Repr && books[s].bids in Repr && books[s].asks in Repr
            && books[s].Repr() <= Repr)
      && (forall s :: s in books ==> books[s].View() == views[s])
      && (forall s, t :: s in books && t in books && s != t ==> books[s].Repr() !! books[t].Repr())
    }

    /** The price maps of every book are in order. */
    ghost predicate Sound()
      reads this`books, this`views, this`Repr, Repr
    {
      Layout() && forall s :: s in books ==> books[s].Sound()
    }

    /** And so is every book's index. */
    ghost predicate Valid()
      reads this`books, this`views, this`Repr, Repr
    {
      Layout() && forall s :: s in books ==> books[s].Valid()
    }

    ghost function State(): Spec.ExState
      reads this
    {
      Spec.ExState(views, orderSymbolMap)
    }

    constructor ()
      ensures Valid() && fresh(Repr)
      ensures State() == Spec.EMPTY_EXCHANGE
    {
      books, orderSymbolMap := map[], map[];
      views := map[];
      Repr := {};
    }

    /** A book whose footprint is untouched is as it was. */
    static twostate lemma BookKept(book: OrderBook)
      requires old(book.Valid())
      requires forall o :: o in old(book.Repr()) ==> unchanged(o)
      ensures book.Valid() && book.View() == old(book.View()) && book.Repr() == old(book.Repr())
    {
      assert book in old(book.Repr()) && book.bids in old(book.Repr()) && book.asks in old(book.Repr());
      assert forall o :: o in old(book.bids.Repr) + old(book.asks.Repr) ==> o in old(book.Repr());
    }

    /** Footprints that are disjoint from one book's, and from each other, are disjoint. */
    lemma LaidOut(symbol: Symbol)
      requires this !in Repr && views.Keys == books.Keys && symbol in books
      requires forall s :: s in books ==>
                 && books[s] in Repr && books[s].bids in Repr && books[s].asks in Repr
                 && books[s].Repr() <= Repr && books[s].View() == views[s]
      requires forall s :: s in books && s != symbol ==> books[s].Repr() !! books[symbol].Repr()
      requires forall s, t :: s in books && t in books && s != t && s != symbol && t != symbol ==>
                 books[s].Repr() !! books[t].Repr()
      ensures Layout()
    {
      hide OrderBook.View, OrderBook.Repr;
    }

    /** The books whose footprints are untouched are as they were. */
    twostate lemma OthersKept(new symbol: Symbol)
      requires old(Valid())
      requires forall s :: s in old(books) && s != symbol ==>
                 s in books && books[s] == old(books[s]) && forall o :: o in old(books[s].Repr()) ==> unchanged(o)
      ensures forall s :: s in old(books) && s != symbol ==>
                && books[s].Valid() && books[s].View() == old(views)[s]
                && books[s].Repr() == old(books[s].Repr()) && books[s].Repr() <= old(Repr)
    {
      hide OrderBook.Valid, OrderBook.View, OrderBook.Repr;
      forall s | s in old(books) && s != symbol
        ensures && books[s].Valid() && books[s].View() == old(views)[s]
                && books[s].Repr() == old(books[s].Repr())
      {
        BookKept(books[s]);
      }
    }

    /** Changing one book inside its own footprint, and describing the change, keeps
        the layout and the other books. */
    twostate lemma OneBookChanged(new symbol: Symbol)
      requires old(Valid()) && symbol in old(books) && books == old(books)
      requires forall o :: o in old(Repr) && o !in old(books[symbol].Repr()) ==> unchanged(o)
      requires var book := books[symbol];
               && this !in book.Repr() && (book.Repr() - old(book.Repr())) !! old(Repr)
               && Repr == old(Repr) + book.Repr()
               && views == old(views)[symbol := book.View()]
      ensures Layout() && forall s :: s in books && s != symbol ==> books[s].Valid()
    {
      hide OrderBook.Valid, OrderBook.View, OrderBook.Repr, OrderBook.Sound;
      OthersKept(symbol);
      forall s | s in old(books) && s != symbol ensures books[s].Repr() !! books[symbol].Repr() {
        assert old(books[s].Repr()) !! old(books[symbol].Repr());
      }
      LaidOut(symbol);
    }

    /** With the other books valid, the exchange stands and falls with this one. */
    lemma Judged(symbol: Symbol)
      requires Layout() && symbol in books && forall s :: s in books && s != symbol ==> books[s].Valid()
      ensures Valid() <==> books[symbol].Valid()
      ensures books[symbol].Sound() ==> Sound()
    {
      hide Layout, OrderBook.IndexOk;
    }

    /** A new book in its own fresh memory joins the exchange. */
    twostate lemma BookCreated(new symbol: Symbol)
      requires old(Valid()) && symbol !in old(books)
      requires symbol in books && books == old(books)[symbol := books[symbol]]
      requires forall o :: o in old(Repr) ==> unchanged(o)
      requires var book := books[symbol];
               && book.Valid() && this !in book.Repr() && book.Repr() !! old(Repr)
               && book in book.Repr() && book.bids in book.Repr() && book.asks in book.Repr()
               && Repr == old(Repr) + book.Repr()
               && views == old(views)[symbol := book.View()]
      ensures Valid()
    {
      hide OrderBook.Valid, OrderBook.View, OrderBook.Repr, OrderBook.Sound;
      OthersKept(symbol);
      LaidOut(symbol);
    }

    /** `books[symbol]`: find the book or create it. */
    method Subscript(symbol: Symbol) returns (book: OrderBook)
      requires Valid()
      modifies this`books, this`views, this`Repr
      ensures Valid() && fresh(Repr - old(Repr))
      ensures symbol in books && book == books[symbol]
      ensures views == old(views)[symbol := Spec.BookOf(old(State()), symbol)]
      ensures this !in Repr
    {
      if symbol !in books {
        book := new OrderBook();
        books := books[symbol := book];
        views := views[symbol := EMPTY_BOOK];
        Repr := Repr + book.Repr();
        BookCreated(symbol);
      }
      book := books[symbol];
    }

    // ----- the call into a book that exists, for each remaining operation

    lemma Listed(symbol: Symbol)
      requires Valid() && symbol in books
      ensures var book := books[symbol];
              && book.Valid() && book.View() == views[symbol]
              && book in Repr && book.bids in Repr && book.asks in Repr
              && book.Repr() <= Repr && this !in Repr
    {
    }

    method MatchListed(symbol: Symbol) returns (trades: seq<Trade>)
      requires Valid() && symbol in books
      modifies this, Repr
      ensures Valid() && Repr == old(Repr)
      ensures trades == MatchTrades(old(views)[symbol])
      ensures views == old(views)[symbol := MatchBook(old(views)[symbol])]
      ensures orderSymbolMap == old(orderSymbolMap)
      ensures this !in Repr
    {
      hide Valid, Layout, Sound, OrderBook.Valid, OrderBook.Sound, OrderBook.View, MatchBook, MatchTrades;
      Listed(symbol);
      var book := books[symbol];
      ghost var reached := book.Repr();
      trades := book.MatchOrders();
      assert forall o :: o in old(Repr) && o !in old(book.Repr()) ==> unchanged(o);
      assert book.Repr() == reached && Repr == Repr + book.Repr();
      views := views[symbol := book.View()];
      OneBookChanged(symbol);
      Judged(symbol);
    }

    method AddListed(symbol: Symbol, o: Order)
      requires Valid() && symbol in books
      modifies this, Repr
      ensures Sound() && fresh(Repr - old(Repr))
      ensures Valid() <==> !Live(old(views)[symbol], o.orderId)
      ensures views == old(views)[symbol := Add(old(views)[symbol], o)]
      ensures orderSymbolMap == old(orderSymbolMap)
      ensures this !in Repr
    {
      hide Valid, Layout, Sound, OrderBook.Valid, OrderBook.Sound, OrderBook.View, Add, CancelIn, ModifyIn, Live;
      Listed(symbol);
      var book := books[symbol];
      ghost var reached := book.Repr();
      ghost var it := book.AddOrder(o);
      ghost var grown := book.Repr();
      assert reached <= old(Repr) && (grown - reached) !! old(Repr);
      assert fresh(old(Repr) + grown - old(Repr));
      views := views[symbol := book.View()];
      Repr := Repr + grown;
      assert book.Repr() == grown;
      assert forall o :: o in old(Repr) && o !in reached ==> unchanged(o);
      OneBookChanged(symbol);
      Judged(symbol);
    }

    method CancelListed(symbol: Symbol, orderId: nat) returns (accepted: bool)
      requires Valid() && symbol in books
      modifies this, Repr
      ensures Valid() && Repr == old(Repr)
      ensures accepted <==> Live(old(views)[symbol], orderId)
      ensures views == old(views)[symbol := CancelIn(old(views)[symbol], orderId)]
      ensures orderSymbolMap == old(orderSymbolMap)
      ensures this !in Repr
    {
      hide Valid, Layout, Sound, OrderBook.Valid, OrderBook.Sound, OrderBook.View, Add, CancelIn, ModifyIn, Live;
      Listed(symbol);
      var book := books[symbol];
      ghost var reached := book.Repr();
      accepted := book.CancelOrder(orderId);
      assert forall o :: o in old(Repr) && o !in old(book.Repr()) ==> unchanged(o);
      assert book.Repr() == reached && Repr == Repr + book.Repr();
      views := views[symbol := book.View()];
      OneBookChanged(symbol);
      Judged(symbol);
    }

    method ModifyListed(symbol: Symbol, orderId: nat, newQty: int, newPrice: Price, timestamp: int)
      returns (accepted: bool)
      requires Valid() && symbol in books
      modifies this, Repr
      ensures Valid() && fresh(Repr - old(Repr))
      ensures accepted <==> Live(old(views)[symbol], orderId)
      ensures views == old(views)[symbol := ModifyIn(old(views)[symbol], orderId, newQty, newPrice, timestamp)]
      ensures orderSymbolMap == old(orderSymbolMap)
      ensures this !in Repr
    {
      hide Valid, Layout, Sound, OrderBook.Valid, OrderBook.Sound, OrderBook.View, Add, CancelIn, ModifyIn, Live;
      Listed(symbol);
      var book := books[symbol];
      ghost var reached := book.Repr();
      accepted := book.ModifyOrder(orderId, newQty, newPrice, timestamp);
      ghost var grown := book.Repr();
      assert reached <= old(Repr) && (grown - reached) !! old(Repr);
      assert fresh(old(Repr) + grown - old(Repr));
      views := views[symbol := book.View()];
      Repr := Repr + grown;
      assert book.Repr() == grown;
      assert forall o :: o in old(Repr) && o !in reached ==> unchanged(o);
      OneBookChanged(symbol);
      Judged(symbol);
    }

    // ----- the exchange's own operations

    method MatchOrders(symbol: Symbol) returns (trades: seq<Trade>)
      requires Valid()
      modifies this, Repr
      ensures Valid() && Repr == old(Repr)
      ensures State() == Spec.MatchAt(old(State()), symbol)
      ensures trades == Spec.TradesAt(old(State()), symbol)
    {
      trades := [];
      if symbol in books {
        trades := MatchListed(symbol);
      }
    }

    /** Any id is taken. The books' own indexes stay exact just when no order rests
        under it in that book; Routing.AddCoversIff has the condition for the
        routing index, whose entry is overwritten here. */
    method AddOrder(symbol: Symbol, o: Order)
      requires Valid()
      modifies this, Repr
      ensures Sound() && fresh(Repr - old(Repr))
      ensures Valid() <==> !Live(Spec.BookOf(old(State()), symbol), o.orderId)
      ensures State() == Spec.AddTo(old(State()), symbol, o)
    {
      hide Valid, Sound, Add, Live;
      var book := Subscript(symbol);
      AddListed(symbol, o);
      orderSymbolMap := orderSymbolMap[o.orderId := symbol];
    }

    /** Returns false for either rejection message. */
    method CancelOrder(orderId: nat) returns (accepted: bool)
      requires Valid()
      modifies this, Repr
      ensures Valid() && fresh(Repr - old(Repr))
      ensures State() == Spec.CancelBy(old(State()), orderId)
      ensures accepted <==> var ex := old(State());
        orderId in ex.index && Live(Spec.BookOf(ex, ex.index[orderId]), orderId)
    {
      hide Valid, Sound, CancelIn, Live;
      accepted := orderId in orderSymbolMap;
      if accepted {
        var symbol := orderSymbolMap[orderId];
        var book := Subscript(symbol);
        accepted := CancelListed(symbol, orderId);
        orderSymbolMap := orderSymbolMap - {orderId};
      }
    }

    method ModifyOrder(orderId: nat, symbol: Symbol, newQty: int, newPrice: Price, timestamp: int)
      returns (accepted: bool)
      requires Valid()
      modifies this, Repr
      ensures Valid() && fresh(Repr - old(Repr))
      ensures State() == Spec.ModifyBy(old(State()), orderId, symbol, newQty, newPrice, timestamp)
      ensures accepted <==> var ex := old(State());
        orderId in ex.index && ex.index[orderId] == symbol && Live(Spec.BookOf(ex, symbol), orderId)
    {
      hide Valid, Sound, ModifyIn, Live;
      accepted := orderId in orderSymbolMap && orderSymbolMap[orderId] == symbol;
      if accepted {
        var book := Subscript(symbol);
        accepted := ModifyListed(symbol, orderId, newQty, newPrice, timestamp);
      }
    }
  }
}
