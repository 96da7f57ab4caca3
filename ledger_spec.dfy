/** The daily ledger as functions: what one transaction does to the book,
    what one market day produces, and the whole report. The class in
    ComputeEngine is proved to compute exactly these values. */
module LedgerSpec {
  import opened LedgerTypes
  import opened Calendar

  /** Trading days per year in the daily cash accrual. */
  const TradingDaysPerYear: real := 252.0

  /** The annual cash rate compute_daily_report uses when none is given. */
  const DefaultCashRate: real := 0.03

  /** One day of interest on the cash balance. */
  function Accrue(cash: real, rate: real): real
  {
    cash * (1.0 + rate / TradingDaysPerYear)
  }

  /** Kinds that add shares and spend cash. */
  predicate BuySide(k: Kind) { k == Achat || k == Rachat }

  /** Kinds that remove shares and bring cash in. */
  predicate SellSide(k: Kind) { k == Vente || k == Short }

  /** prix * nb, the gross value of the trade. */
  function Gross(tx: Tx): real { tx.prix * (tx.nb as real) }

  /** "montant": prix * nb + frais. */
  function Amount(tx: Tx): real { Gross(tx) + tx.frais }

  /** Every ticker traded in `s` has an entry in the book. */
  ghost predicate Known(s: seq<Tx>, positions: map<string, int>)
  {
    forall tx :: tx in s ==> tx.ticker in positions
  }

  /** The effect of one transaction on the book, by kind. */
  function Apply(b: Book, tx: Tx): (r: Book)
    requires tx.ticker in b.positions
    ensures r.positions.Keys == b.positions.Keys
  {
    match tx.kind
    case Achat | Rachat =>
      Book(b.positions[tx.ticker := b.positions[tx.ticker] + tx.nb], b.cash - Amount(tx))
    case Vente | Short =>
      Book(b.positions[tx.ticker := b.positions[tx.ticker] - tx.nb], b.cash + (Gross(tx) - tx.frais))
    case Other => b
  }

  /** The book after applying `s` in order. */
  function BookAfter(b: Book, s: seq<Tx>): (r: Book)
    requires Known(s, b.positions)
    ensures r.positions.Keys == b.positions.Keys
  {
    if s == [] then b
    else
      var init := s[..|s| - 1];
      assert forall tx :: tx in init ==> tx in s;
      Apply(BookAfter(b, init), s[|s| - 1])
  }

  // Per-transaction contributions to the day's sums.

  /** Signed share change. */
  function Delta(tx: Tx): int
  {
    if BuySide(tx.kind) then tx.nb else if SellSide(tx.kind) then -tx.nb else 0
  }

  /** Signed cash change. */
  function Flow(tx: Tx): real
  {
    if BuySide(tx.kind) then -Amount(tx)
    else if SellSide(tx.kind) then Gross(tx) - tx.frais
    else 0.0
  }

  function Fee(tx: Tx): real { tx.frais }

  /** Contribution to "Montant_Investi". */
  function Invested(tx: Tx): real { if BuySide(tx.kind) then Amount(tx) else 0.0 }

  /** Contribution to "Montant_Recupere" (fees not deducted). */
  function Recovered(tx: Tx): real { if SellSide(tx.kind) then Gross(tx) else 0.0 }

  /** The fee of a sell-side transaction, zero otherwise. */
  function SellFee(tx: Tx): real { if SellSide(tx.kind) then tx.frais else 0.0 }

  /** Sum of `f` over `s`. */
  function SumOf(s: seq<Tx>, f: Tx -> real): real
  {
    if s == [] then 0.0 else SumOf(s[..|s| - 1], f) + f(s[|s| - 1])
  }

  /** Number of transactions of kind `k` in `s`. */
  function Count(s: seq<Tx>, k: Kind): nat
  {
    if s == [] then 0
    else Count(s[..|s| - 1], k) + (if s[|s| - 1].kind == k then 1 else 0)
  }

  /** Net signed share change of ticker `t` over `s`. */
  function NetShares(s: seq<Tx>, t: string): int
  {
    if s == [] then 0
    else NetShares(s[..|s| - 1], t) + (if s[|s| - 1].ticker == t then Delta(s[|s| - 1]) else 0)
  }

  /** The day's counters and totals over its transactions `s`. */
  function TallyOf(s: seq<Tx>): Tally
  {
    Tally(Count(s, Achat), Count(s, Vente), Count(s, Short), Count(s, Rachat),
          SumOf(s, Fee), SumOf(s, Invested), SumOf(s, Recovered))
  }

  /** One more transaction bumps the counter of its kind and adds its fee,
      its invested and its recovered amount to the totals. */
  lemma TallySnoc(done: seq<Tx>, tx: Tx)
    ensures var a := TallyOf(done);
            TallyOf(done + [tx])
            == Tally(a.nAchats + (if tx.kind == Achat then 1 else 0), a.nVentes + (if tx.kind == Vente then 1 else 0),
                     a.nShorts + (if tx.kind == Short then 1 else 0), a.nRachats + (if tx.kind == Rachat then 1 else 0),
                     a.frais + tx.frais, a.investi + Invested(tx), a.recupere + Recovered(tx))
  {
    assert (done + [tx])[..|done|] == done;
  }

  /** What ticker `t` adds to the day's valuation: nothing when unpriced. */
  function Contribution(positions: map<string, int>, prices: Prices, d: Date, t: string): real
    requires t in positions
  {
    if (d, t) in prices then (positions[t] as real) * prices[(d, t)] else 0.0
  }

  /** "Valeur_Titres": the book valued at day `d`'s prices, walking the
      tickers in book order. */
  function Value(tickers: seq<string>, positions: map<string, int>, prices: Prices, d: Date): real
    requires forall t :: t in tickers ==> t in positions
  {
    if tickers == [] then 0.0
    else
      Value(tickers[..|tickers| - 1], positions, prices, d)
      + Contribution(positions, prices, d, tickers[|tickers| - 1])
  }

  /** The transactions dated exactly `d`, in input order. */
  function DayTxs(txs: seq<Tx>, d: Date): (r: seq<Tx>)
    ensures forall tx :: tx in r <==> tx in txs && tx.date == d
  {
    if txs == [] then []
    else
      var init := txs[..|txs| - 1];
      var last := txs[|txs| - 1];
      assert txs == init + [last];
      DayTxs(init, d) + (if last.date == d then [last] else [])
  }

  /** The filter keeps log order: the day's transactions of a log made of
      two parts are those of the first part followed by those of the
      second. */
  lemma {:induction false} DayTxsAppend(a: seq<Tx>, b: seq<Tx>, d: Date)
    ensures DayTxs(a + b, d) == DayTxs(a, d) + DayTxs(b, d)
    decreases |b|
  {
    if b == [] {
      assert a + b == a;
    } else {
      var init := b[..|b| - 1];
      DayTxsAppend(a, init, d);
      assert (a + b)[..|a + b| - 1] == a + init;
    }
  }

  /** The filter keeps every copy: a transaction dated `d` occurs in the
      day's list as often as in the log, any other not at all. */
  lemma {:induction false} DayTxsCopies(txs: seq<Tx>, d: Date)
    ensures forall tx :: multiset(DayTxs(txs, d))[tx] == if tx.date == d then multiset(txs)[tx] else 0
  {
    if txs != [] {
      var init, last := txs[..|txs| - 1], txs[|txs| - 1];
      DayTxsCopies(init, d);
      assert txs == init + [last];
      assert multiset(txs) == multiset(init) + multiset{last};
    }
  }

  ghost function TickerSet(txs: seq<Tx>): set<string>
  {
    set tx | tx in txs :: tx.ticker
  }

  ghost predicate Distinct(s: seq<string>)
  {
    forall i, j :: 0 <= i < j < |s| ==> s[i] != s[j]
  }

  /** The tickers of the log, once each, in order of first appearance:
      the key order of the position book. */
  function UniqueTickers(txs: seq<Tx>): (r: seq<string>)
    ensures Distinct(r)
    ensures forall t :: t in r <==> t in TickerSet(txs)
  {
    if txs == [] then []
    else
      var init := txs[..|txs| - 1];
      var last := txs[|txs| - 1];
      assert txs == init + [last];
      var u := UniqueTickers(init);
      if last.ticker in u then u else u + [last.ticker]
  }

  /** A book keyed by the tickers of the log covers every trade of the
      log and every ticker of the log. */
  lemma BookCoversLog(txs: seq<Tx>, positions: map<string, int>)
    requires positions.Keys == TickerSet(txs)
    ensures Known(txs, positions)
    ensures forall t :: t in UniqueTickers(txs) ==> t in positions
  {
    forall tx | tx in txs ensures tx.ticker in positions {
      assert tx.ticker in TickerSet(txs);
    }
  }

  /** A book that covers the log covers every day of it. */
  lemma KnownDay(txs: seq<Tx>, d: Date, positions: map<string, int>)
    requires Known(txs, positions)
    ensures Known(DayTxs(txs, d), positions)
  {
  }

  /** Every ticker of the log at zero shares. */
  function ZeroBook(tickers: seq<string>): (r: map<string, int>)
    ensures forall t :: t in r <==> t in tickers
    ensures forall t :: t in r ==> r[t] == 0
  {
    map t | t in tickers :: 0
  }

  /** The ledger row of day `d` whose transactions are `s`, starting from
      the previous close `b`: accrue, trade, value, add up. */
  function Day(b: Book, d: Date, s: seq<Tx>, prices: Prices, rate: real, tickers: seq<string>): Row
    requires Known(s, b.positions)
    requires forall t :: t in tickers ==> t in b.positions
  {
    var e := BookAfter(Book(b.positions, Accrue(b.cash, rate)), s);
    var v := Value(tickers, e.positions, prices, d);
    Row(d, TallyOf(s), v, e.cash, v + e.cash, e.positions)
  }

  /** A row assembled from the day's tally, closing book and valuation is
      the row Day specifies. */
  lemma DayFromParts(b: Book, d: Date, s: seq<Tx>, prices: Prices, rate: real, tickers: seq<string>,
                     tally: Tally, e: Book, v: real)
    requires Known(s, b.positions)
    requires forall t :: t in tickers ==> t in b.positions
    requires tally == TallyOf(s)
    requires e == BookAfter(Book(b.positions, Accrue(b.cash, rate)), s)
    requires v == Value(tickers, e.positions, prices, d)
    ensures Row(d, tally, v, e.cash, v + e.cash, e.positions) == Day(b, d, s, prices, rate, tickers)
  {
  }

  /** The rows of the calendar `days`, from the close `b`. */
  function RunFrom(days: seq<Date>, txs: seq<Tx>, prices: Prices, rate: real,
                   tickers: seq<string>, b: Book): seq<Row>
    requires Known(txs, b.positions)
    requires forall t :: t in tickers ==> t in b.positions
    decreases |days|
  {
    if days == [] then []
    else
      var row := Day(b, days[0], DayTxs(txs, days[0]), prices, rate, tickers);
      [row] + RunFrom(days[1..], txs, prices, rate, tickers, Book(row.positions, row.cash))
  }

  /** The run from calendar entry `i` is the row of that day followed by
      the run from the next entry, starting at that day's close. */
  lemma RunFromStep(days: seq<Date>, i: nat, txs: seq<Tx>, prices: Prices, rate: real,
                    tickers: seq<string>, b: Book)
    requires i < |days|
    requires Known(txs, b.positions)
    requires forall t :: t in tickers ==> t in b.positions
    ensures var row := Day(b, days[i], DayTxs(txs, days[i]), prices, rate, tickers);
            && Known(txs, row.positions)
            && (forall t :: t in tickers ==> t in row.positions)
            && RunFrom(days[i..], txs, prices, rate, tickers, b)
               == [row] + RunFrom(days[i + 1..], txs, prices, rate, tickers, Book(row.positions, row.cash))
  {
    assert days[i..][1..] == days[i + 1..];
    var s := DayTxs(txs, days[i]);
    assert Known(s, b.positions) by {
      forall tx | tx in s ensures tx.ticker in b.positions { assert tx in txs; }
    }
  }

  /** The whole report: the calendar sorted, every ticker of the log at
      zero, the cash at the initial capital. */
  function Report(txs: seq<Tx>, prices: Prices, days: seq<Date>, capital: real, rate: real): seq<Row>
  {
    var tickers := UniqueTickers(txs);
    RunFrom(SortDays(days), txs, prices, rate, tickers, Book(ZeroBook(tickers), capital))
  }
}
