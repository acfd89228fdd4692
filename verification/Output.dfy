/** The program's whole trade output: in command order, complete, and with nothing
    in it that the statistics do not count. */
module Output {
  import opened Orders
  import opened BookSpec
  import opened Matching
  import opened BookRuns
  import opened Ledgers
  import opened ExchangeSpec
  import opened Routing

  // ----- commands that do not match

  /** Only NEW and MODIFY trade; STATS and BOOK change nothing at all. */
  lemma QuietCommands(ex: ExState, c: Command)
    ensures !c.New? && !c.Modify? ==> DispatchTrades(ex, c) == []
    ensures c.Stats? || c.BookQuery? ==> Dispatch(ex, c) == ex
  {
  }

  // ----- order

  lemma {:induction false} OutputGrows(cs: seq<Command>, k: nat)
    requires k <= |cs|
    ensures ExTrades(cs[..k]) <= ExTrades(cs)
    decreases |cs|
  {
    hide ExRun, Dispatch, DispatchTrades;
    if k == |cs| {
      assert cs[..k] == cs;
    } else {
      var before := cs[..|cs| - 1];
      OutputGrows(before, k);
      assert before[..k] == cs[..k];
    }
  }

  /** The trades of every command follow those of all the commands before it, and
      what comes later only adds to them. */
  lemma OutputInOrder(cs: seq<Command>, k: nat)
    requires k < |cs|
    ensures ExTrades(cs[..k]) + DispatchTrades(ExRun(cs[..k]), cs[k]) <= ExTrades(cs)
  {
    hide ExRun, Dispatch, DispatchTrades;
    OutputGrows(cs, k + 1);
    assert cs[..k + 1][..k] == cs[..k];
  }

  lemma {:induction false} TapeGrows(s: Symbol, cs: seq<Command>, k: nat)
    requires k <= |cs|
    ensures TapeOf(s, cs[..k]) <= TapeOf(s, cs)
    decreases |cs|
  {
    hide ExRun, Dispatch, DispatchTrades;
    if k == |cs| {
      assert cs[..k] == cs;
    } else {
      var before := cs[..|cs| - 1];
      TapeGrows(s, before, k);
      assert before[..k] == cs[..k];
    }
  }

  /** So it is in each symbol's own output, which has the trades of the NEWs and MODIFYs naming it. */
  lemma TapeInOrder(s: Symbol, cs: seq<Command>, k: nat)
    requires k < |cs|
    ensures TapeOf(s, cs[..k]) <= TapeOf(s, cs)
    ensures (cs[k].New? && cs[k].symbol == s) || (cs[k].Modify? && cs[k].modifySymbol == s) ==>
              TapeOf(s, cs[..k]) + DispatchTrades(ExRun(cs[..k]), cs[k]) <= TapeOf(s, cs)
  {
    hide ExRun, Dispatch, DispatchTrades;
    TapeGrows(s, cs, k);
    TapeGrows(s, cs, k + 1);
    assert cs[..k + 1][..k] == cs[..k];
  }

  lemma {:induction false} RunTradesGrow(cs: seq<Command>, k: nat)
    requires k <= |cs|
    ensures RunTrades(cs[..k]) <= RunTrades(cs)
    decreases |cs|
  {
    hide BookRun, BookStep, StepTrades;
    if k == |cs| {
      assert cs[..k] == cs;
    } else {
      var before := cs[..|cs| - 1];
      RunTradesGrow(before, k);
      assert before[..k] == cs[..k];
    }
  }

  /** And in the output of a lone book. */
  lemma RunTradesInOrder(cs: seq<Command>, k: nat)
    requires k < |cs|
    ensures RunTrades(cs[..k]) + StepTrades(BookRun(cs[..k]), cs[k]) <= RunTrades(cs)
  {
    hide BookRun, BookStep, StepTrades;
    RunTradesGrow(cs, k + 1);
    assert cs[..k + 1][..k] == cs[..k];
  }

  // ----- totals over all books

  ghost function Sum(f: Book -> int, books: map<Symbol, Book>): int
    decreases |books|
  {
    if books == map[] then 0
    else
      var s :| s in books;
      assert |books - {s}| < |books| by { OneLess(books, s); }
      f(books[s]) + Sum(f, books - {s})
  }

  lemma OneLess(books: map<Symbol, Book>, s: Symbol)
    requires s in books
    ensures |books - {s}| < |books|
  {
    assert (books - {s}).Keys == books.Keys - {s};
    assert |(books - {s}).Keys| == |books - {s}| && |books.Keys| == |books|;
  }

  /** Any book may be counted first. */
  lemma {:induction false} SumPick(f: Book -> int, books: map<Symbol, Book>, s: Symbol)
    requires s in books
    ensures Sum(f, books) == f(books[s]) + Sum(f, books - {s})
    decreases |books|
  {
    var t :| t in books && Sum(f, books) == f(books[t]) + Sum(f, books - {t});
    if t != s {
      OneLess(books, t);
      SumPick(f, books - {t}, s);
      SumPick(f, books - {s}, t);
      assert books - {t} - {s} == books - {s} - {t};
    }
  }

  /** Writing one book changes the sum by what that book changes, a new book counting from nothing. */
  lemma SumSet(f: Book -> int, ex: ExState, s: Symbol, b: Book)
    requires f(EMPTY_BOOK) == 0
    ensures Sum(f, ex.books[s := b]) == Sum(f, ex.books) + f(b) - f(BookOf(ex, s))
  {
    var books' := ex.books[s := b];
    SumPick(f, books', s);
    if s in ex.books {
      SumPick(f, ex.books, s);
      assert books' - {s} == ex.books - {s};
    } else {
      assert books' - {s} == ex.books;
    }
  }

  function TradesIn(b: Book): int {
    b.stats.totalTrades
  }

  function VolumeIn(b: Book): int {
    b.stats.totalVolume
  }

  /** A figure that only matching moves. */
  ghost predicate TradeFigure(f: Book -> int) {
    && f(EMPTY_BOOK) == 0
    && forall b, b' :: TradesIn(b) == TradesIn(b') && VolumeIn(b) == VolumeIn(b') ==> f(b) == f(b')
  }

  lemma RoutedSum(f: Book -> int, ex: ExState, c: Command)
    requires TradeFigure(f)
    ensures Sum(f, Routed(ex, c).books) == Sum(f, ex.books)
  {
    hide Sum, Inserted, Without, Resized, Live, KeepsPriority;
    match c
    case New(_, _, _, _, _, s) => SumSet(f, ex, s, Add(BookOf(ex, s), OrderOf(c)));
    case Cancel(id) =>
      if id in ex.index {
        SumSet(f, ex, ex.index[id], CancelIn(BookOf(ex, ex.index[id]), id));
      }
    case Modify(id, s, q, p, ts) => SumSet(f, ex, s, ModifyIn(BookOf(ex, s), id, q, p, ts));
    case Stats =>
    case BookQuery(_) =>
  }

  /** Each command moves the totals over all books by exactly what it prints. */
  lemma DispatchTotals(ex: ExState, c: Command)
    ensures Sum(TradesIn, Dispatch(ex, c).books) == Sum(TradesIn, ex.books) + |DispatchTrades(ex, c)|
    ensures Sum(VolumeIn, Dispatch(ex, c).books) == Sum(VolumeIn, ex.books) + Volume(DispatchTrades(ex, c))
  {
    hide Sum, Routed, MatchSides;
    RoutedSum(TradesIn, ex, c);
    RoutedSum(VolumeIn, ex, c);
    var routed := Routed(ex, c);
    if Matches(c) && SymbolOf(c) in routed.books {
      SumSet(TradesIn, routed, SymbolOf(c), MatchBook(routed.books[SymbolOf(c)]));
      SumSet(VolumeIn, routed, SymbolOf(c), MatchBook(routed.books[SymbolOf(c)]));
    }
  }

  /** Main result: the output of a run, all symbols together, has as many trades and
      as much volume as the statistics of all the books report, for any commands. */
  lemma {:induction false} OutputIsCounted(cs: seq<Command>)
    ensures |ExTrades(cs)| == Sum(TradesIn, ExRun(cs).books)
    ensures Volume(ExTrades(cs)) == Sum(VolumeIn, ExRun(cs).books)
  {
    hide Dispatch, DispatchTrades;
    if cs != [] {
      var before, c := cs[..|cs| - 1], cs[|cs| - 1];
      OutputIsCounted(before);
      DispatchTotals(ExRun(before), c);
      VolumeConcat(ExTrades(before), DispatchTrades(ExRun(before), c));
    }
  }
}
