/** Properties of the whole report: one row per calendar entry in date
    order, the NAV identity, the key set of every snapshot, the recurrence
    linking each row to the previous close, and what a transaction dated
    outside the calendar does. */
module ReportLemmas {
  import opened LedgerTypes
  import opened Calendar
  import opened LedgerSpec
  import opened LedgerLemmas

  lemma {:induction false} RunFromShape(days: seq<Date>, txs: seq<Tx>, prices: Prices, rate: real,
                                        tickers: seq<string>, b: Book)
    requires Known(txs, b.positions)
    requires forall t :: t in tickers ==> t in b.positions
    ensures var r := RunFrom(days, txs, prices, rate, tickers, b);
            && |r| == |days|
            && (forall i :: 0 <= i < |r| ==> r[i].date == days[i])
            && (forall i :: 0 <= i < |r| ==> r[i].nav == r[i].securities + r[i].cash)
            && (forall i :: 0 <= i < |r| ==> r[i].positions.Keys == b.positions.Keys)
    decreases |days|
  {
    if days != [] {
      var row := Day(b, days[0], DayTxs(txs, days[0]), prices, rate, tickers);
      RunFromShape(days[1..], txs, prices, rate, tickers, Book(row.positions, row.cash));
    }
  }

  /** Row `i` is the Day row of calendar entry `i`, starting from the
      close of row `i - 1` (from `b` for the first row). */
  lemma {:induction false} RunFromAt(days: seq<Date>, txs: seq<Tx>, prices: Prices, rate: real,
                                     tickers: seq<string>, b: Book, i: nat)
    requires Known(txs, b.positions)
    requires forall t :: t in tickers ==> t in b.positions
    requires i < |days|
    ensures |RunFrom(days, txs, prices, rate, tickers, b)| == |days|
    ensures var r := RunFrom(days, txs, prices, rate, tickers, b);
            var prev := if i == 0 then b else Book(r[i - 1].positions, r[i - 1].cash);
            && prev.positions.Keys == b.positions.Keys
            && Known(DayTxs(txs, days[i]), prev.positions)
            && r[i] == Day(prev, days[i], DayTxs(txs, days[i]), prices, rate, tickers)
    decreases i
  {
    RunFromShape(days, txs, prices, rate, tickers, b);
    var r := RunFrom(days, txs, prices, rate, tickers, b);
    var row := Day(b, days[0], DayTxs(txs, days[0]), prices, rate, tickers);
    var b1 := Book(row.positions, row.cash);
    assert r == [row] + RunFrom(days[1..], txs, prices, rate, tickers, b1);
    if i > 0 {
      RunFromAt(days[1..], txs, prices, rate, tickers, b1, i - 1);
      RunFromShape(days[1..], txs, prices, rate, tickers, b1);
    }
    var prev := if i == 0 then b else Book(r[i - 1].positions, r[i - 1].cash);
    forall tx | tx in DayTxs(txs, days[i]) ensures tx.ticker in prev.positions {
      assert tx in txs;
    }
  }

  lemma ReportStart(txs: seq<Tx>)
    ensures var tickers := UniqueTickers(txs);
            && Known(txs, ZeroBook(tickers))
            && (forall t :: t in tickers ==> t in ZeroBook(tickers))
            && ZeroBook(tickers).Keys == TickerSet(txs)
  {
    var tickers := UniqueTickers(txs);
    forall tx | tx in txs ensures tx.ticker in ZeroBook(tickers) {
      assert tx.ticker in TickerSet(txs);
    }
  }

  /** The report has one row per calendar entry (a repeated date gives two
      rows), the rows follow the calendar in ascending date order, NAV is
      securities value plus cash on every row, and every Positions
      snapshot is keyed by exactly the tickers of the transaction log. */
  lemma ReportShape(txs: seq<Tx>, prices: Prices, days: seq<Date>, capital: real, rate: real)
    ensures var r := Report(txs, prices, days, capital, rate);
            && |r| == |days|
            && (forall i :: 0 <= i < |r| ==> r[i].date == SortDays(days)[i])
            && (forall i, j :: 0 <= i < j < |r| ==> r[i].date <= r[j].date)
            && (forall i :: 0 <= i < |r| ==> r[i].nav == r[i].securities + r[i].cash)
            && (forall i :: 0 <= i < |r| ==> r[i].positions.Keys == TickerSet(txs))
  {
    var tickers := UniqueTickers(txs);
    ReportStart(txs);
    SortDaysSorts(days);
    RunFromShape(SortDays(days), txs, prices, rate, tickers, Book(ZeroBook(tickers), capital));
  }

  /** Each row follows from the previous close (the initial capital and an
      all-zero book for the first row): cash accrues one day of interest
      on the previous closing cash, then moves by that day's trade cash
      flows; each position moves by the day's net share count; the
      counters and totals are those of the transactions dated that day;
      Valeur_Titres is the new book at that day's prices. */
  lemma DailyRecurrence(txs: seq<Tx>, prices: Prices, days: seq<Date>, capital: real, rate: real, i: nat)
    requires i < |days|
    ensures |Report(txs, prices, days, capital, rate)| == |days|
    ensures var r := Report(txs, prices, days, capital, rate);
            var s := DayTxs(txs, r[i].date);
            && r[i].positions.Keys == TickerSet(txs)
            && (i > 0 ==> r[i - 1].positions.Keys == TickerSet(txs))
            && r[i].cash == Accrue(if i == 0 then capital else r[i - 1].cash, rate) + SumOf(s, Flow)
            && (forall t :: t in r[i].positions ==>
                  r[i].positions[t] == (if i == 0 then 0 else r[i - 1].positions[t]) + NetShares(s, t))
            && r[i].tally == TallyOf(s)
            && r[i].securities == Value(UniqueTickers(txs), r[i].positions, prices, r[i].date)
  {
    var tickers := UniqueTickers(txs);
    var b := Book(ZeroBook(tickers), capital);
    var sorted := SortDays(days);
    ReportStart(txs);
    RunFromAt(sorted, txs, prices, rate, tickers, b, i);
    var r := RunFrom(sorted, txs, prices, rate, tickers, b);
    var prev := if i == 0 then b else Book(r[i - 1].positions, r[i - 1].cash);
    var s := DayTxs(txs, sorted[i]);
    BookAfterNet(Book(prev.positions, Accrue(prev.cash, rate)), s);
  }

  /** A market day with no transaction dated on it changes the cash by the
      accrual factor alone, leaves every position as it was (all at zero
      on the first day) and counts nothing. */
  lemma QuietDay(txs: seq<Tx>, prices: Prices, days: seq<Date>, capital: real, rate: real, i: nat)
    requires i < |days|
    requires forall tx :: tx in txs ==> tx.date != SortDays(days)[i]
    ensures |Report(txs, prices, days, capital, rate)| == |days|
    ensures var r := Report(txs, prices, days, capital, rate);
            && r[i].cash == Accrue(if i == 0 then capital else r[i - 1].cash, rate)
            && r[i].positions == (if i == 0 then ZeroBook(UniqueTickers(txs)) else r[i - 1].positions)
            && r[i].tally == Tally(0, 0, 0, 0, 0.0, 0.0, 0.0)
  {
    ReportShape(txs, prices, days, capital, rate);
    DailyRecurrence(txs, prices, days, capital, rate, i);
    ReportStart(txs);
    var r := Report(txs, prices, days, capital, rate);
    assert DayTxs(txs, r[i].date) == [];
    assert r[i].positions == (if i == 0 then ZeroBook(UniqueTickers(txs)) else r[i - 1].positions);
  }

  /** The calendar is sorted but not de-duplicated: a date listed twice is
      processed twice, so its transactions are counted again and their
      share changes applied a second time. */
  lemma RepeatedDate(txs: seq<Tx>, prices: Prices, days: seq<Date>, capital: real, rate: real, i: nat)
    requires 0 < i < |days|
    requires SortDays(days)[i - 1] == SortDays(days)[i]
    ensures |Report(txs, prices, days, capital, rate)| == |days|
    ensures var r := Report(txs, prices, days, capital, rate);
            && r[i].tally == r[i - 1].tally
            && r[i].positions.Keys == r[i - 1].positions.Keys
            && (i > 1 ==> r[i - 2].positions.Keys == r[i].positions.Keys)
            && (forall t :: t in r[i].positions ==>
                  r[i].positions[t] - r[i - 1].positions[t]
                  == r[i - 1].positions[t] - (if i == 1 then 0 else r[i - 2].positions[t]))
  {
    ReportShape(txs, prices, days, capital, rate);
    DailyRecurrence(txs, prices, days, capital, rate, i);
    DailyRecurrence(txs, prices, days, capital, rate, i - 1);
  }

  // A transaction dated outside the calendar.

  /** The book with ticker `t` added at zero shares when it is missing. */
  function Pad(positions: map<string, int>, t: string): map<string, int>
  {
    if t in positions then positions else positions[t := 0]
  }

  lemma {:induction false} NetSharesAbsent(s: seq<Tx>, t: string)
    requires forall x :: x in s ==> x.ticker != t
    ensures NetShares(s, t) == 0
  {
    if s != [] {
      NetSharesAbsent(s[..|s| - 1], t);
    }
  }

  lemma DayTxsSkip(txs: seq<Tx>, tx: Tx, d: Date)
    requires tx.date != d
    ensures DayTxs(txs + [tx], d) == DayTxs(txs, d)
  {
    assert (txs + [tx])[..|txs|] == txs;
  }

  /** Trading on a book that also holds an untraded ticker at zero leaves
      that ticker at zero and does everything else alike. */
  lemma BookAfterPad(a: Book, s: seq<Tx>, t: string)
    requires Known(s, a.positions)
    ensures Known(s, Pad(a.positions, t))
    ensures BookAfter(Book(Pad(a.positions, t), a.cash), s)
            == Book(Pad(BookAfter(a, s).positions, t), BookAfter(a, s).cash)
  {
    if t !in a.positions {
      var a2 := Book(Pad(a.positions, t), a.cash);
      var e := BookAfter(a, s);
      BookAfterNet(a, s);
      BookAfterNet(a2, s);
      NetSharesAbsent(s, t);
      BookExt(BookAfter(a2, s), Book(Pad(e.positions, t), e.cash));
    }
  }

  /** The valuation order once ticker `t` has been seen. */
  function More(tickers: seq<string>, t: string): seq<string>
  {
    if t in tickers then tickers else tickers + [t]
  }

  /** Walking one more ticker, held at zero, adds nothing to the valuation. */
  lemma ValuePad(tickers: seq<string>, positions: map<string, int>, prices: Prices, d: Date, t: string)
    requires forall u :: u in tickers <==> u in positions
    ensures forall u :: u in More(tickers, t) <==> u in Pad(positions, t)
    ensures Value(More(tickers, t), Pad(positions, t), prices, d) == Value(tickers, positions, prices, d)
  {
    if t !in tickers {
      var more := tickers + [t];
      assert more[..|tickers|] == tickers;
      ValueFrame(tickers, Pad(positions, t), positions, prices, d);
      assert Contribution(Pad(positions, t), prices, d, t) == 0.0;
    }
  }

  /** One market day other than the transaction's date: the row with the
      transaction logged is the row without it, its ticker padded in. */
  lemma DayPad(b: Book, d: Date, txs: seq<Tx>, tx: Tx, prices: Prices, rate: real, tickers: seq<string>)
    requires d != tx.date
    requires Known(txs, b.positions)
    requires forall u :: u in tickers <==> u in b.positions
    ensures Known(txs + [tx], Pad(b.positions, tx.ticker))
    ensures forall u :: u in More(tickers, tx.ticker) <==> u in Pad(b.positions, tx.ticker)
    ensures var row := Day(b, d, DayTxs(txs, d), prices, rate, tickers);
            && Known(txs, row.positions)
            && (forall u :: u in tickers <==> u in row.positions)
            && Day(Book(Pad(b.positions, tx.ticker), b.cash), d, DayTxs(txs + [tx], d), prices, rate,
                   More(tickers, tx.ticker))
               == row.(positions := Pad(row.positions, tx.ticker))
  {
    var t := tx.ticker;
    ValuePad(tickers, b.positions, prices, 0, t);
    var s := DayTxs(txs, d);
    DayTxsSkip(txs, tx, d);
    assert Known(s, b.positions) by {
      forall x | x in s ensures x.ticker in b.positions { assert x in txs; }
    }
    var a := Book(b.positions, Accrue(b.cash, rate));
    var e := BookAfter(a, s);
    BookAfterPad(a, s, t);
    ValuePad(tickers, e.positions, prices, d, t);
  }

  /** `r2` is `r` with ticker `t` padded into every snapshot. */
  ghost predicate Padded(r2: seq<Row>, r: seq<Row>, t: string)
  {
    && |r2| == |r|
    && forall i :: 0 <= i < |r| ==> r2[i] == r[i].(positions := Pad(r[i].positions, t))
  }

  lemma PaddedCons(row2: Row, row: Row, rest2: seq<Row>, rest: seq<Row>, t: string)
    requires row2 == row.(positions := Pad(row.positions, t))
    requires Padded(rest2, rest, t)
    ensures Padded([row2] + rest2, [row] + rest, t)
  {
    var r2, r := [row2] + rest2, [row] + rest;
    forall i | 0 <= i < |r| ensures r2[i] == r[i].(positions := Pad(r[i].positions, t)) {
      if i > 0 {
        assert r2[i] == rest2[i - 1] && r[i] == rest[i - 1];
      }
    }
  }

  lemma {:induction false} RunFromPad(days: seq<Date>, txs: seq<Tx>, tx: Tx, prices: Prices, rate: real,
                                      tickers: seq<string>, b: Book)
    requires forall i :: 0 <= i < |days| ==> days[i] != tx.date
    requires Known(txs, b.positions)
    requires forall u :: u in tickers <==> u in b.positions
    ensures Known(txs + [tx], Pad(b.positions, tx.ticker))
    ensures forall u :: u in More(tickers, tx.ticker) ==> u in Pad(b.positions, tx.ticker)
    ensures Padded(RunFrom(days, txs + [tx], prices, rate, More(tickers, tx.ticker),
                           Book(Pad(b.positions, tx.ticker), b.cash)),
                   RunFrom(days, txs, prices, rate, tickers, b), tx.ticker)
    decreases |days|
  {
    var t := tx.ticker;
    var more := More(tickers, t);
    if days == [] {
      DayPad(b, tx.date + 1, txs, tx, prices, rate, tickers);
    } else {
      var d := days[0];
      DayPad(b, d, txs, tx, prices, rate, tickers);
      var row := Day(b, d, DayTxs(txs, d), prices, rate, tickers);
      var row2 := Day(Book(Pad(b.positions, t), b.cash), d, DayTxs(txs + [tx], d), prices, rate, more);
      var b1 := Book(row.positions, row.cash);
      var b2 := Book(row2.positions, row2.cash);
      assert b2 == Book(Pad(b1.positions, t), b1.cash);
      RunFromPad(days[1..], txs, tx, prices, rate, tickers, b1);
      PaddedCons(row2, row, RunFrom(days[1..], txs + [tx], prices, rate, more, b2),
                 RunFrom(days[1..], txs, prices, rate, tickers, b1), t);
    }
  }

  /** The case of a transaction logged last. */
  lemma OffCalendarLast(txs: seq<Tx>, tx: Tx, prices: Prices, days: seq<Date>, capital: real, rate: real)
    requires tx.date !in days
    ensures var r := Report(txs, prices, days, capital, rate);
            var r2 := Report(txs + [tx], prices, days, capital, rate);
            && |r2| == |r|
            && forall i :: 0 <= i < |r| ==> r2[i] == r[i].(positions := Pad(r[i].positions, tx.ticker))
  {
    var t := tx.ticker;
    var tickers := UniqueTickers(txs);
    assert (txs + [tx])[..|txs|] == txs;
    assert UniqueTickers(txs + [tx]) == More(tickers, t);
    ReportStart(txs);
    assert ZeroBook(More(tickers, t)) == Pad(ZeroBook(tickers), t);
    var sorted := SortDays(days);
    SortDaysSorts(days);
    forall i | 0 <= i < |sorted| ensures sorted[i] != tx.date {
      assert sorted[i] in multiset(sorted);
    }
    RunFromPad(sorted, txs, tx, prices, rate, tickers, Book(ZeroBook(tickers), capital));
  }

  // Where a transaction stands in the log.

  /** The run does not depend on the order in which the valuation walks
      the tickers, only on which tickers it walks. */
  lemma {:induction false} RunFromTickerOrder(days: seq<Date>, txs: seq<Tx>, prices: Prices, rate: real,
                                              t1: seq<string>, t2: seq<string>, b: Book)
    requires Known(txs, b.positions)
    requires Distinct(t1) && Distinct(t2)
    requires forall t :: t in t1 <==> t in t2
    requires forall t :: t in t1 ==> t in b.positions
    ensures RunFrom(days, txs, prices, rate, t1, b) == RunFrom(days, txs, prices, rate, t2, b)
    decreases |days|
  {
    if days != [] {
      var d := days[0];
      var s := DayTxs(txs, d);
      KnownDay(txs, d, b.positions);
      var e := BookAfter(Book(b.positions, Accrue(b.cash, rate)), s);
      ValuePermutation(t1, t2, e.positions, prices, d);
      var row := Day(b, d, s, prices, rate, t1);
      assert Day(b, d, s, prices, rate, t2) == row;
      RunFromTickerOrder(days[1..], txs, prices, rate, t1, t2, Book(row.positions, row.cash));
    }
  }

  /** The run reads the log only through the transactions of each of its
      days. */
  lemma {:induction false} RunFromSameDays(days: seq<Date>, x: seq<Tx>, y: seq<Tx>, prices: Prices, rate: real,
                                           tickers: seq<string>, b: Book)
    requires Known(x, b.positions) && Known(y, b.positions)
    requires forall t :: t in tickers ==> t in b.positions
    requires forall i :: 0 <= i < |days| ==> DayTxs(x, days[i]) == DayTxs(y, days[i])
    ensures RunFrom(days, x, prices, rate, tickers, b) == RunFrom(days, y, prices, rate, tickers, b)
    decreases |days|
  {
    if days != [] {
      var row := Day(b, days[0], DayTxs(x, days[0]), prices, rate, tickers);
      var rest := days[1..];
      assert forall i :: 0 <= i < |rest| ==> rest[i] == days[i + 1];
      RunFromSameDays(rest, x, y, prices, rate, tickers, Book(row.positions, row.cash));
    }
  }

  /** Two logs with the same tickers and the same transactions, in the
      same order, on every market day give the same report, however the
      transactions of different days are interleaved in the log. */
  lemma ReportDependsOnDays(x: seq<Tx>, y: seq<Tx>, prices: Prices, days: seq<Date>, capital: real, rate: real)
    requires TickerSet(x) == TickerSet(y)
    requires forall d :: d in days ==> DayTxs(x, d) == DayTxs(y, d)
    ensures Report(x, prices, days, capital, rate) == Report(y, prices, days, capital, rate)
  {
    var tx, ty := UniqueTickers(x), UniqueTickers(y);
    ReportStart(x);
    ReportStart(y);
    assert ZeroBook(tx) == ZeroBook(ty);
    var b := Book(ZeroBook(tx), capital);
    var sorted := SortDays(days);
    SortDaysSorts(days);
    forall i | 0 <= i < |sorted| ensures DayTxs(x, sorted[i]) == DayTxs(y, sorted[i]) {
      assert sorted[i] in multiset(sorted);
    }
    RunFromTickerOrder(sorted, x, prices, rate, tx, ty, b);
    RunFromSameDays(sorted, x, y, prices, rate, ty, b);
  }

  /** Moving a transaction to the end of the log keeps its tickers. */
  lemma MoveToEnd(s1: seq<Tx>, tx: Tx, s2: seq<Tx>)
    ensures TickerSet(s1 + [tx] + s2) == TickerSet(s1 + s2 + [tx])
  {
    var x, y := s1 + [tx] + s2, s1 + s2 + [tx];
    assert forall u :: u in x <==> u in y;
  }

  /** Moving a transaction to the end of the log keeps the transactions
      of every other day, in order. */
  lemma DayTxsMoveToEnd(s1: seq<Tx>, tx: Tx, s2: seq<Tx>, d: Date)
    requires tx.date != d
    ensures DayTxs(s1 + [tx] + s2, d) == DayTxs(s1 + s2 + [tx], d)
  {
    DayTxsSkip(s1, tx, d);
    DayTxsSkip(s1 + s2, tx, d);
    DayTxsAppend(s1 + [tx], s2, d);
    DayTxsAppend(s1, s2, d);
  }

  /** A transaction dated on no market day, wherever it stands in the log,
      changes no cash, no counter, no valuation and no position of any
      row. Its ticker is still a key of the book, so when no other
      transaction mentions that ticker every Positions snapshot gains it
      at zero shares. */
  lemma OffCalendarTx(s1: seq<Tx>, tx: Tx, s2: seq<Tx>, prices: Prices, days: seq<Date>, capital: real, rate: real)
    requires tx.date !in days
    ensures var r := Report(s1 + s2, prices, days, capital, rate);
            var r2 := Report(s1 + [tx] + s2, prices, days, capital, rate);
            && |r2| == |r|
            && forall i :: 0 <= i < |r| ==> r2[i] == r[i].(positions := Pad(r[i].positions, tx.ticker))
  {
    var x, y := s1 + [tx] + s2, s1 + s2 + [tx];
    MoveToEnd(s1, tx, s2);
    forall d | d in days ensures DayTxs(x, d) == DayTxs(y, d) {
      DayTxsMoveToEnd(s1, tx, s2, d);
    }
    ReportDependsOnDays(x, y, prices, days, capital, rate);
    OffCalendarLast(s1 + s2, tx, prices, days, capital, rate);
  }

  /** When the ticker of the off-calendar transaction is traded elsewhere
      in the log, the report is exactly the same. */
  lemma OffCalendarKnownTicker(s1: seq<Tx>, tx: Tx, s2: seq<Tx>, prices: Prices, days: seq<Date>,
                               capital: real, rate: real)
    requires tx.date !in days
    requires exists x :: x in s1 + s2 && x.ticker == tx.ticker
    ensures Report(s1 + [tx] + s2, prices, days, capital, rate) == Report(s1 + s2, prices, days, capital, rate)
  {
    OffCalendarTx(s1, tx, s2, prices, days, capital, rate);
    ReportShape(s1 + s2, prices, days, capital, rate);
    var r := Report(s1 + s2, prices, days, capital, rate);
    var r2 := Report(s1 + [tx] + s2, prices, days, capital, rate);
    assert tx.ticker in TickerSet(s1 + s2);
    forall i | 0 <= i < |r| ensures r2[i] == r[i] {
      assert tx.ticker in r[i].positions;
    }
  }

  /** The counters and totals of a day with a single transaction. */
  lemma SingleTally(tx: Tx)
    ensures TallyOf([tx]) == Tally(if tx.kind == Achat then 1 else 0, if tx.kind == Vente then 1 else 0,
                                   if tx.kind == Short then 1 else 0, if tx.kind == Rachat then 1 else 0,
                                   tx.frais, Invested(tx), Recovered(tx))
  {
    assert [tx][..0] == [];
    forall k: Kind ensures Count([tx], k) == if tx.kind == k then 1 else 0 {
      assert Count([tx], k) == Count([], k) + (if tx.kind == k then 1 else 0);
    }
    assert SumOf([tx], Fee) == 0.0 + Fee(tx);
    assert SumOf([tx], Invested) == 0.0 + Invested(tx);
    assert SumOf([tx], Recovered) == 0.0 + Recovered(tx);
  }

  /** The purchase of the scenario below, on the opening book. */
  lemma ScenarioDayOne(buy: Tx, prices: Prices)
    requires buy == Tx(1, "X", 10, 50.0, 1.0, Achat) && prices == map[(1, "X") := 50.0]
    ensures var c := Accrue(100000.0, DefaultCashRate) - 501.0;
            Day(Book(map["X" := 0], 100000.0), 1, [buy], prices, DefaultCashRate, ["X"])
            == Row(1, Tally(1, 0, 0, 0, 1.0, 501.0, 0.0), 500.0, c, 500.0 + c, map["X" := 10])
  {
    var a := Book(map["X" := 0], Accrue(100000.0, DefaultCashRate));
    assert [buy][..0] == [];
    assert BookAfter(a, [buy]) == Apply(a, buy);
    var e := Apply(a, buy);
    assert e.positions == map["X" := 10];
    assert Value(["X"], e.positions, prices, 1) == 500.0 by {
      assert ["X"][..0] == [];
      assert Contribution(e.positions, prices, 1, "X") == 10.0 * 50.0;
    }
    SingleTally(buy);
  }

  /** The log of the scenario below: one ticker, one trade on day 1. */
  lemma ScenarioLog(buy: Tx)
    requires buy == Tx(1, "X", 10, 50.0, 1.0, Achat)
    ensures UniqueTickers([buy]) == ["X"]
    ensures DayTxs([buy], 1) == [buy] && DayTxs([buy], 2) == []
  {
    assert [buy][..0] == [];
  }

  /** The calendar of the scenario below, sorted. */
  lemma ScenarioCalendar(days: seq<Date>)
    requires days == [2, 1]
    ensures SortDays(days) == [1, 2]
  {
    assert days[1..] == [1];
    assert [1][1..] == [];
    assert SortDays([1]) == [1];
    assert [1][1..] == [];
  }

  /** A day without trades nor prices: accrual only. */
  lemma ScenarioDayTwo(b: Book, prices: Prices)
    requires prices == map[(1, "X") := 50.0] && b.positions == map["X" := 10]
    ensures var c := Accrue(b.cash, DefaultCashRate);
            Day(b, 2, [], prices, DefaultCashRate, ["X"])
            == Row(2, Tally(0, 0, 0, 0, 0.0, 0.0, 0.0), 0.0, c, 0.0 + c, b.positions)
  {
    assert ["X"][..0] == [];
    assert Value(["X"], b.positions, prices, 2) == 0.0;
  }

  /** The two days of the scenario below, from the opening book. */
  lemma ScenarioRun(buy: Tx, prices: Prices, b0: Book)
    requires buy == Tx(1, "X", 10, 50.0, 1.0, Achat) && prices == map[(1, "X") := 50.0]
    requires b0 == Book(map["X" := 0], 100000.0)
    ensures var c1 := Accrue(100000.0, DefaultCashRate) - 501.0;
            var c2 := Accrue(c1, DefaultCashRate);
            RunFrom([1, 2], [buy], prices, DefaultCashRate, ["X"], b0)
            == [Row(1, Tally(1, 0, 0, 0, 1.0, 501.0, 0.0), 500.0, c1, 500.0 + c1, map["X" := 10]),
                Row(2, Tally(0, 0, 0, 0, 0.0, 0.0, 0.0), 0.0, c2, 0.0 + c2, map["X" := 10])]
  {
    ScenarioLog(buy);
    ScenarioDayOne(buy, prices);
    var row1 := Day(b0, 1, [buy], prices, DefaultCashRate, ["X"]);
    var b1 := Book(row1.positions, row1.cash);
    ScenarioDayTwo(b1, prices);
    var row2 := Day(b1, 2, [], prices, DefaultCashRate, ["X"]);
    assert [1, 2][1..] == [2];
    assert RunFrom([2], [buy], prices, DefaultCashRate, ["X"], b1) == [row2];
  }

  /** The whole report of the scenario below, row by row. */
  lemma ScenarioReport(buy: Tx, prices: Prices, days: seq<Date>, capital: real)
    requires buy == Tx(1, "X", 10, 50.0, 1.0, Achat) && prices == map[(1, "X") := 50.0]
    requires days == [2, 1] && capital == 100000.0
    ensures var c1 := Accrue(capital, DefaultCashRate) - 501.0;
            var c2 := Accrue(c1, DefaultCashRate);
            Report([buy], prices, days, capital, DefaultCashRate)
            == [Row(1, Tally(1, 0, 0, 0, 1.0, 501.0, 0.0), 500.0, c1, 500.0 + c1, map["X" := 10]),
                Row(2, Tally(0, 0, 0, 0, 0.0, 0.0, 0.0), 0.0, c2, 0.0 + c2, map["X" := 10])]
  {
    ScenarioCalendar(days);
    ScenarioLog(buy);
    var b0 := Book(map["X" := 0], capital);
    assert ZeroBook(["X"]) == b0.positions;
    ScenarioRun(buy, prices, b0);
  }

  /** Two market days given out of order, one purchase of 10 shares at 50
      with a fee of 1 on day 1, a price on day 1 only. Day 1 closes at the
      accrued capital less the fee, the interest on the capital accruing
      before the trade; day 2 only accrues, and the unpriced holding is
      valued at zero, not at the day-1 price. */
  lemma FirstDayScenario()
    ensures var buy := Tx(1, "X", 10, 50.0, 1.0, Achat);
            var r := Report([buy], map[(1, "X") := 50.0], [2, 1], 100000.0, DefaultCashRate);
            && |r| == 2
            && r[0].date == 1 && r[1].date == 2
            && r[0].tally == Tally(1, 0, 0, 0, 1.0, 501.0, 0.0)
            && r[0].securities == 500.0
            && r[0].cash == Accrue(100000.0, DefaultCashRate) - 501.0
            && r[0].nav == Accrue(100000.0, DefaultCashRate) - 1.0
            && r[1].positions == r[0].positions == map["X" := 10]
            && r[1].securities == 0.0
            && r[1].cash == Accrue(r[0].cash, DefaultCashRate)
  {
    ScenarioReport(Tx(1, "X", 10, 50.0, 1.0, Achat), map[(1, "X") := 50.0], [2, 1], 100000.0);
  }
}
