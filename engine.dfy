/** compute_daily_report: the day loop over the market calendar, with the
    position book and the cash balance updated in place. */
module ComputeEngine {
  import opened LedgerTypes
  import opened Calendar
  import opened LedgerSpec

  /** The state of one run: the inputs it closes over, the position book,
      the cash balance and the rows emitted so far. `tickers` holds the
      book's key order: first appearance in the log. */
  class Ledger {
    const transactions: seq<Tx>
    const prices: Prices
    const rate: real
    const tickers: seq<string>
    var positions: map<string, int>
    var cash: real
    var records: seq<Row>

    /** Every trade of the log and every step of the valuation finds its
        ticker in the book. */
    ghost predicate Valid()
      reads this
    {
      && tickers == UniqueTickers(transactions)
      && Known(transactions, positions)
      && (forall t :: t in tickers ==> t in positions)
    }

    /** The book before the first day: every ticker of the log at zero,
        cash at the initial capital, no rows. */
    constructor (transactions: seq<Tx>, prices: Prices, capital: real, rate: real)
      ensures Valid()
      ensures this.transactions == transactions && this.prices == prices && this.rate == rate
      ensures positions == ZeroBook(tickers) && cash == capital && records == []
    {
      this.transactions := transactions;
      this.prices := prices;
      this.rate := rate;
      var tickers := UniqueTickers(transactions);
      this.tickers := tickers;
      positions := map t | t in tickers :: 0;
      cash := capital;
      records := [];
      new;
      BookCoversLog(transactions, positions);
    }

    /** "Valeur_Titres" at day `d`: each ticker of the book times its price
        that day, unpriced tickers contributing nothing. */
    method Valuation(d: Date) returns (v: real)
      requires forall t :: t in tickers ==> t in positions
      ensures v == Value(tickers, positions, prices, d)
    {
      v := 0.0;
      var i := 0;
      while i < |tickers|
        invariant 0 <= i <= |tickers|
        invariant v == Value(tickers[..i], positions, prices, d)
      {
        var t := tickers[i];
        assert tickers[..i + 1][..i] == tickers[..i];
        if (d, t) in prices {
          v := v + (positions[t] as real) * prices[(d, t)];
        }
        i := i + 1;
      }
      assert tickers[..i] == tickers;
    }

    /** One transaction of the day, dispatched on its kind: the book moves
        as Apply says and the day's counters take it in. */
    method Trade(tx: Tx, ghost done: seq<Tx>, tally: Tally) returns (next: Tally)
      requires tx.ticker in positions
      requires tally == TallyOf(done)
      modifies this`positions, this`cash
      ensures Book(positions, cash) == Apply(old(Book(positions, cash)), tx)
      ensures next == TallyOf(done + [tx])
    {
      TallySnoc(done, tx);
      var montant := tx.prix * (tx.nb as real) + tx.frais;
      next := tally;
      match tx.kind {
        case Achat =>
          positions := positions[tx.ticker := positions[tx.ticker] + tx.nb];
          cash := cash - montant;
          next := next.(nAchats := next.nAchats + 1, investi := next.investi + montant);
        case Vente =>
          positions := positions[tx.ticker := positions[tx.ticker] - tx.nb];
          cash := cash + (tx.prix * (tx.nb as real) - tx.frais);
          next := next.(nVentes := next.nVentes + 1, recupere := next.recupere + tx.prix * (tx.nb as real));
        case Short =>
          positions := positions[tx.ticker := positions[tx.ticker] - tx.nb];
          cash := cash + (tx.prix * (tx.nb as real) - tx.frais);
          next := next.(nShorts := next.nShorts + 1, recupere := next.recupere + tx.prix * (tx.nb as real));
        case Rachat =>
          positions := positions[tx.ticker := positions[tx.ticker] + tx.nb];
          cash := cash - montant;
          next := next.(nRachats := next.nRachats + 1, investi := next.investi + montant);
        case Other =>
      }
      next := next.(frais := next.frais + tx.frais);
    }

    /** The transaction loop of one day: `txs` applied in input order,
        with the day's counters and totals. */
    method TradeDay(txs: seq<Tx>) returns (tally: Tally)
      requires Known(txs, positions)
      modifies this`positions, this`cash
      ensures positions.Keys == old(positions).Keys
      ensures Book(positions, cash) == BookAfter(old(Book(positions, cash)), txs)
      ensures tally == TallyOf(txs)
    {
      tally := Tally(0, 0, 0, 0, 0.0, 0.0, 0.0);
      var i := 0;
      while i < |txs|
        invariant 0 <= i <= |txs|
        invariant positions.Keys == old(positions).Keys
        invariant Book(positions, cash) == BookAfter(old(Book(positions, cash)), txs[..i])
        invariant tally == TallyOf(txs[..i])
      {
        assert txs[..i + 1] == txs[..i] + [txs[i]];
        tally := Trade(txs[i], txs[..i], tally);
        i := i + 1;
      }
      assert txs[..i] == txs;
    }

    /** One market day: accrue the cash, apply the day's transactions in
        input order, value the book, append the row. */
    method RunDay(d: Date)
      requires Valid()
      modifies this
      ensures Valid()
      ensures positions.Keys == old(positions).Keys
      ensures var row := Day(Book(old(positions), old(cash)), d, DayTxs(transactions, d), prices, rate, tickers);
              && records == old(records) + [row]
              && positions == row.positions
              && cash == row.cash
    {
      ghost var start := Book(positions, cash);
      cash := Accrue(cash, rate);
      var txs := DayTxs(transactions, d);
      KnownDay(transactions, d, positions);
      var tally := TradeDay(txs);
      var v := Valuation(d);
      DayFromParts(start, d, txs, prices, rate, tickers, tally, Book(positions, cash), v);
      records := records + [Row(d, tally, v, cash, v + cash, positions)];
      assert positions.Keys == start.positions.Keys;
    }
  }

  /** compute_daily_report: one row per calendar entry, in ascending date
      order, each the state of the ledger at the close of that day. */
  method ComputeDailyReport(transactions: seq<Tx>, prices: Prices, days: seq<Date>,
                            capital: real, rate: real) returns (rows: seq<Row>)
    ensures rows == Report(transactions, prices, days, capital, rate)
  {
    var sorted := SortDays(days);
    var ledger := new Ledger(transactions, prices, capital, rate);
    ghost var report := Report(transactions, prices, days, capital, rate);
    var i := 0;
    while i < |sorted|
      invariant 0 <= i <= |sorted|
      invariant ledger.Valid()
      invariant ledger.transactions == transactions && ledger.prices == prices && ledger.rate == rate
      invariant ledger.records
                + RunFrom(sorted[i..], transactions, prices, rate, ledger.tickers, Book(ledger.positions, ledger.cash))
                == report
    {
      ghost var done := ledger.records;
      ghost var b := Book(ledger.positions, ledger.cash);
      RunFromStep(sorted, i, transactions, prices, rate, ledger.tickers, b);
      ledger.RunDay(sorted[i]);
      ghost var row := Day(b, sorted[i], DayTxs(transactions, sorted[i]), prices, rate, ledger.tickers);
      assert ledger.records == done + [row];
      assert Book(ledger.positions, ledger.cash) == Book(row.positions, row.cash);
      assert done + [row] + RunFrom(sorted[i + 1..], transactions, prices, rate, ledger.tickers, Book(row.positions, row.cash))
             == done + RunFrom(sorted[i..], transactions, prices, rate, ledger.tickers, b);
      i := i + 1;
    }
    assert sorted[i..] == [];
    rows := ledger.records;
  }
}
