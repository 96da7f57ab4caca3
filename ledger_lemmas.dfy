/** Properties of one market day: the kind effects in closed form, the
    round trips, inertness of unknown kinds, order independence of the
    day's transactions, the bookkeeping identities and the valuation. */
module LedgerLemmas {
  import opened LedgerTypes
  import opened LedgerSpec

  // Sums over concatenations.

  lemma {:induction false} SumOfAppend(s: seq<Tx>, u: seq<Tx>, f: Tx -> real)
    ensures SumOf(s + u, f) == SumOf(s, f) + SumOf(u, f)
  {
    if u != [] {
      var n := |u| - 1;
      assert (s + u)[..|s + u| - 1] == s + u[..n];
      SumOfAppend(s, u[..n], f);
    } else {
      assert s + u == s;
    }
  }

  lemma {:induction false} CountAppend(s: seq<Tx>, u: seq<Tx>, k: Kind)
    ensures Count(s + u, k) == Count(s, k) + Count(u, k)
  {
    if u != [] {
      var n := |u| - 1;
      assert (s + u)[..|s + u| - 1] == s + u[..n];
      CountAppend(s, u[..n], k);
    } else {
      assert s + u == s;
    }
  }

  lemma {:induction false} NetSharesAppend(s: seq<Tx>, u: seq<Tx>, t: string)
    ensures NetShares(s + u, t) == NetShares(s, t) + NetShares(u, t)
  {
    if u != [] {
      var n := |u| - 1;
      assert (s + u)[..|s + u| - 1] == s + u[..n];
      NetSharesAppend(s, u[..n], t);
    } else {
      assert s + u == s;
    }
  }

  lemma TallyAppend(s: seq<Tx>, u: seq<Tx>)
    ensures var a, b, c := TallyOf(s), TallyOf(u), TallyOf(s + u);
            && c.nAchats == a.nAchats + b.nAchats && c.nVentes == a.nVentes + b.nVentes
            && c.nShorts == a.nShorts + b.nShorts && c.nRachats == a.nRachats + b.nRachats
            && c.frais == a.frais + b.frais && c.investi == a.investi + b.investi
            && c.recupere == a.recupere + b.recupere
  {
    CountAppend(s, u, Achat);
    CountAppend(s, u, Vente);
    CountAppend(s, u, Short);
    CountAppend(s, u, Rachat);
    SumOfAppend(s, u, Fee);
    SumOfAppend(s, u, Invested);
    SumOfAppend(s, u, Recovered);
  }

  /** The book after a day's transactions, in closed form: each ticker
      moves by its net signed share count (+nb for achat/rachat, -nb for
      vente/short) and the cash by the sum of the signed cash flows
      (-(prix*nb + frais) for achat/rachat, prix*nb - frais for
      vente/short, nothing for any other kind). */
  lemma {:induction false} BookAfterNet(b: Book, s: seq<Tx>)
    requires Known(s, b.positions)
    ensures BookAfter(b, s).cash == b.cash + SumOf(s, Flow)
    ensures forall t :: t in b.positions ==> BookAfter(b, s).positions[t] == b.positions[t] + NetShares(s, t)
  {
    if s != [] {
      var init := s[..|s| - 1];
      assert forall tx :: tx in init ==> tx in s;
      BookAfterNet(b, init);
    }
  }

  /** Two books whose cash and positions agree are the same book. */
  lemma BookExt(b1: Book, b2: Book)
    requires b1.cash == b2.cash && b1.positions.Keys == b2.positions.Keys
    requires forall t :: t in b1.positions ==> b1.positions[t] == b2.positions[t]
    ensures b1 == b2
  {
    assert b1.positions == b2.positions;
  }

  lemma BookAfterPair(b: Book, x: Tx, y: Tx)
    requires x.ticker in b.positions && y.ticker in b.positions
    ensures BookAfter(b, [x, y]) == Apply(Apply(b, x), y)
  {
    assert Known([x], b.positions) && Known([x, y], b.positions);
    assert [x][..0] == [];
    assert BookAfter(b, [x]) == Apply(BookAfter(b, []), x);
    assert [x, y][..1] == [x];
    assert BookAfter(b, [x, y]) == Apply(BookAfter(b, [x]), y);
  }

  lemma ApplyRoundTrip(b: Book, buy: Tx, sell: Tx)
    requires buy.ticker in b.positions
    requires BuySide(buy.kind) && SellSide(sell.kind)
    requires sell == buy.(kind := sell.kind)
    ensures Apply(Apply(b, buy), sell) == Book(b.positions, b.cash - 2.0 * buy.frais)
    ensures Apply(Apply(b, sell), buy) == Book(b.positions, b.cash - 2.0 * buy.frais)
  {
  }

  /** An achat (or rachat) followed the same day by a vente (or short) of
      the same ticker, count, price and fee, in either order, leaves the
      position where it was and costs exactly twice the fee. */
  lemma RoundTrip(b: Book, buy: Tx, sell: Tx)
    requires buy.ticker in b.positions
    requires BuySide(buy.kind) && SellSide(sell.kind)
    requires sell == buy.(kind := sell.kind)
    ensures BookAfter(b, [buy, sell]) == Book(b.positions, b.cash - 2.0 * buy.frais)
    ensures BookAfter(b, [sell, buy]) == Book(b.positions, b.cash - 2.0 * buy.frais)
  {
    BookAfterPair(b, buy, sell);
    BookAfterPair(b, sell, buy);
    ApplyRoundTrip(b, buy, sell);
  }

  /** A short followed by a rachat of the same ticker, count and price
      with no fee brings cash in and out by prix*nb and the position back. */
  lemma ShortThenCover(b: Book, short: Tx)
    requires short.ticker in b.positions && short.kind == Short && short.frais == 0.0
    ensures Apply(b, short).cash == b.cash + Gross(short)
    ensures Apply(b, short).positions[short.ticker] == b.positions[short.ticker] - short.nb
    ensures BookAfter(b, [short, short.(kind := Rachat)]) == b
  {
    RoundTrip(b, short.(kind := Rachat), short);
  }

  /** Net signed cash flow of a day = Montant_Recupere - Montant_Investi -
      the fees of vente/short: Montant_Investi is exactly the cash spent by
      achat/rachat, Montant_Recupere the cash brought in by vente/short
      before fees. */
  lemma {:induction false} CashFlowIdentity(s: seq<Tx>)
    ensures SumOf(s, Flow) == SumOf(s, Recovered) - SumOf(s, Invested) - SumOf(s, SellFee)
  {
    if s != [] {
      CashFlowIdentity(s[..|s| - 1]);
    }
  }

  /** Every transaction of the day is counted under exactly one kind. */
  lemma {:induction false} CountsCover(s: seq<Tx>)
    ensures Count(s, Achat) + Count(s, Vente) + Count(s, Short) + Count(s, Rachat) + Count(s, Other) == |s|
  {
    if s != [] {
      CountsCover(s[..|s| - 1]);
    }
  }

  /** Two transaction lists that leave the same book and the same tally
      give the same row. */
  lemma DayByEffect(b: Book, d: Date, s: seq<Tx>, u: seq<Tx>, prices: Prices, rate: real, tickers: seq<string>)
    requires Known(s, b.positions) && Known(u, b.positions)
    requires forall t :: t in tickers ==> t in b.positions
    requires var a := Book(b.positions, Accrue(b.cash, rate)); BookAfter(a, s) == BookAfter(a, u)
    ensures Day(b, d, s, prices, rate, tickers) == Day(b, d, u, prices, rate, tickers).(tally := TallyOf(s))
  {
  }

  lemma OtherSums(s1: seq<Tx>, tx: Tx, s2: seq<Tx>)
    requires tx.kind == Other
    ensures SumOf(s1 + [tx] + s2, Flow) == SumOf(s1 + s2, Flow)
    ensures forall t :: NetShares(s1 + [tx] + s2, t) == NetShares(s1 + s2, t)
  {
    SumOfAppend(s1 + [tx], s2, Flow);
    SumOfAppend(s1, [tx], Flow);
    SumOfAppend(s1, s2, Flow);
    forall t ensures NetShares(s1 + [tx] + s2, t) == NetShares(s1 + s2, t) {
      NetSharesAppend(s1 + [tx], s2, t);
      NetSharesAppend(s1, [tx], t);
      NetSharesAppend(s1, s2, t);
    }
  }

  /** Two transaction lists with the same net cash flow and the same net
      share change per ticker leave the same book. */
  lemma SameNetSameBook(a: Book, s: seq<Tx>, u: seq<Tx>)
    requires Known(s, a.positions) && Known(u, a.positions)
    requires SumOf(s, Flow) == SumOf(u, Flow)
    requires forall t :: NetShares(s, t) == NetShares(u, t)
    ensures BookAfter(a, s) == BookAfter(a, u)
  {
    BookAfterNet(a, s);
    BookAfterNet(a, u);
    BookExt(BookAfter(a, s), BookAfter(a, u));
  }

  lemma OtherBook(a: Book, s1: seq<Tx>, tx: Tx, s2: seq<Tx>)
    requires tx.kind == Other
    requires Known(s1 + [tx] + s2, a.positions)
    ensures Known(s1 + s2, a.positions)
    ensures BookAfter(a, s1 + [tx] + s2) == BookAfter(a, s1 + s2)
  {
    assert forall x :: x in s1 + s2 ==> x in s1 + [tx] + s2;
    OtherSums(s1, tx, s2);
    SameNetSameBook(a, s1 + [tx] + s2, s1 + s2);
  }

  lemma OtherTally(s1: seq<Tx>, tx: Tx, s2: seq<Tx>)
    requires tx.kind == Other
    ensures var r := TallyOf(s1 + s2); TallyOf(s1 + [tx] + s2) == r.(frais := r.frais + tx.frais)
  {
    TallyAppend(s1 + [tx], s2);
    TallyAppend(s1, [tx]);
    TallyAppend(s1, s2);
  }

  /** A transaction of unrecognised kind, wherever it stands in the day,
      changes no position, no cash and no counter; only its fee is added
      to the day's fee total. */
  lemma OtherOnlyAddsFee(b: Book, d: Date, s1: seq<Tx>, tx: Tx, s2: seq<Tx>,
                         prices: Prices, rate: real, tickers: seq<string>)
    requires tx.kind == Other
    requires Known(s1 + [tx] + s2, b.positions)
    requires forall t :: t in tickers ==> t in b.positions
    ensures Known(s1 + s2, b.positions)
    ensures var r := Day(b, d, s1 + s2, prices, rate, tickers);
            Day(b, d, s1 + [tx] + s2, prices, rate, tickers) == r.(tally := r.tally.(frais := r.tally.frais + tx.frais))
  {
    OtherBook(Book(b.positions, Accrue(b.cash, rate)), s1, tx, s2);
    OtherTally(s1, tx, s2);
    DayByEffect(b, d, s1 + [tx] + s2, s1 + s2, prices, rate, tickers);
  }

  lemma SwapSums(s1: seq<Tx>, x: Tx, y: Tx, s2: seq<Tx>)
    ensures SumOf(s1 + [x, y] + s2, Flow) == SumOf(s1 + [y, x] + s2, Flow)
    ensures forall t :: NetShares(s1 + [x, y] + s2, t) == NetShares(s1 + [y, x] + s2, t)
  {
    assert [x, y] == [x] + [y] && [y, x] == [y] + [x];
    SumOfAppend(s1 + [x, y], s2, Flow);
    SumOfAppend(s1 + [y, x], s2, Flow);
    SumOfAppend(s1, [x, y], Flow);
    SumOfAppend(s1, [y, x], Flow);
    SumOfAppend([x], [y], Flow);
    SumOfAppend([y], [x], Flow);
    forall t ensures NetShares(s1 + [x, y] + s2, t) == NetShares(s1 + [y, x] + s2, t) {
      NetSharesAppend(s1 + [x, y], s2, t);
      NetSharesAppend(s1 + [y, x], s2, t);
      NetSharesAppend(s1, [x, y], t);
      NetSharesAppend(s1, [y, x], t);
      NetSharesAppend([x], [y], t);
      NetSharesAppend([y], [x], t);
    }
  }

  lemma SwapBook(a: Book, s1: seq<Tx>, x: Tx, y: Tx, s2: seq<Tx>)
    requires Known(s1 + [x, y] + s2, a.positions)
    ensures Known(s1 + [y, x] + s2, a.positions)
    ensures BookAfter(a, s1 + [x, y] + s2) == BookAfter(a, s1 + [y, x] + s2)
  {
    assert forall z :: z in s1 + [y, x] + s2 ==> z in s1 + [x, y] + s2;
    SwapSums(s1, x, y, s2);
    SameNetSameBook(a, s1 + [x, y] + s2, s1 + [y, x] + s2);
  }

  lemma SwapTally(s1: seq<Tx>, x: Tx, y: Tx, s2: seq<Tx>)
    ensures TallyOf(s1 + [x, y] + s2) == TallyOf(s1 + [y, x] + s2)
  {
    TallyAppend(s1 + [x, y], s2);
    TallyAppend(s1 + [y, x], s2);
    TallyAppend(s1, [x, y]);
    TallyAppend(s1, [y, x]);
    assert [x, y] == [x] + [y] && [y, x] == [y] + [x];
    TallyAppend([x], [y]);
    TallyAppend([y], [x]);
  }

  /** Swapping two adjacent transactions of a day changes nothing in that
      day's row: the counters, totals, cash and positions are sums. */
  lemma SwapAdjacent(b: Book, d: Date, s1: seq<Tx>, x: Tx, y: Tx, s2: seq<Tx>,
                     prices: Prices, rate: real, tickers: seq<string>)
    requires Known(s1 + [x, y] + s2, b.positions)
    requires forall t :: t in tickers ==> t in b.positions
    ensures Known(s1 + [y, x] + s2, b.positions)
    ensures Day(b, d, s1 + [x, y] + s2, prices, rate, tickers) == Day(b, d, s1 + [y, x] + s2, prices, rate, tickers)
  {
    SwapBook(Book(b.positions, Accrue(b.cash, rate)), s1, x, y, s2);
    SwapTally(s1, x, y, s2);
    DayByEffect(b, d, s1 + [x, y] + s2, s1 + [y, x] + s2, prices, rate, tickers);
  }

  // Valuation.

  /** A day absent from the price table, or on which no ticker of the
      book is priced, values the book at zero. */
  lemma {:induction false} ValueUnpriced(tickers: seq<string>, positions: map<string, int>, prices: Prices, d: Date)
    requires forall t :: t in tickers ==> t in positions
    requires forall t :: t in tickers ==> (d, t) !in prices
    ensures Value(tickers, positions, prices, d) == 0.0
  {
    if tickers != [] {
      ValueUnpriced(tickers[..|tickers| - 1], positions, prices, d);
    }
  }

  /** Only day `d`'s prices enter the valuation of day `d`: two price
      tables that agree on day `d` give the same value, whatever they hold
      for other days (no earlier price is carried forward). */
  lemma {:induction false} ValueOnlyToday(tickers: seq<string>, positions: map<string, int>,
                                          p1: Prices, p2: Prices, d: Date)
    requires forall t :: t in tickers ==> t in positions
    requires forall t :: t in tickers ==> ((d, t) in p1 <==> (d, t) in p2)
    requires forall t :: t in tickers && (d, t) in p1 ==> p1[(d, t)] == p2[(d, t)]
    ensures Value(tickers, positions, p1, d) == Value(tickers, positions, p2, d)
  {
    if tickers != [] {
      ValueOnlyToday(tickers[..|tickers| - 1], positions, p1, p2, d);
    }
  }

  /** The valuation reads the book only at the tickers it walks. */
  lemma {:induction false} ValueFrame(tickers: seq<string>, p1: map<string, int>, p2: map<string, int>,
                                      prices: Prices, d: Date)
    requires forall t :: t in tickers ==> t in p1 && t in p2 && p1[t] == p2[t]
    ensures Value(tickers, p1, prices, d) == Value(tickers, p2, prices, d)
  {
    if tickers != [] {
      ValueFrame(tickers[..|tickers| - 1], p1, p2, prices, d);
    }
  }

  /** Moving one ticker's position by `delta` moves the valuation by
      delta times its price that day, or not at all when it is unpriced. */
  lemma {:induction false} ValueShift(tickers: seq<string>, positions: map<string, int>, prices: Prices,
                                      d: Date, t: string, delta: int)
    requires forall u :: u in tickers ==> u in positions
    requires Distinct(tickers) && t in positions
    ensures Value(tickers, positions[t := positions[t] + delta], prices, d)
            == Value(tickers, positions, prices, d)
               + (if t in tickers && (d, t) in prices then (delta as real) * prices[(d, t)] else 0.0)
  {
    if tickers != [] {
      var init, last := tickers[..|tickers| - 1], tickers[|tickers| - 1];
      assert Distinct(init);
      assert t in tickers <==> t in init || t == last;
      assert t == last ==> t !in init;
      ValueShift(init, positions, prices, d, t, delta);
      if t == last && (d, t) in prices {
        var p := prices[(d, t)];
        assert ((positions[t] + delta) as real) * p == (positions[t] as real) * p + (delta as real) * p;
      }
    }
  }

  /** The valuation of two ticker lists walked one after the other. */
  lemma {:induction false} ValueAppend(a: seq<string>, b: seq<string>, positions: map<string, int>,
                                       prices: Prices, d: Date)
    requires forall t :: t in a ==> t in positions
    requires forall t :: t in b ==> t in positions
    ensures Value(a + b, positions, prices, d) == Value(a, positions, prices, d) + Value(b, positions, prices, d)
    decreases |b|
  {
    if b == [] {
      assert a + b == a;
    } else {
      var init := b[..|b| - 1];
      ValueAppend(a, init, positions, prices, d);
      assert (a + b)[..|a + b| - 1] == a + init;
    }
  }

  /** Taking ticker `s[j]` out of the walk removes exactly its contribution. */
  lemma ValueRemove(s: seq<string>, j: nat, positions: map<string, int>, prices: Prices, d: Date)
    requires j < |s|
    requires forall t :: t in s ==> t in positions
    ensures Value(s, positions, prices, d)
            == Value(s[..j] + s[j + 1..], positions, prices, d) + Contribution(positions, prices, d, s[j])
  {
    var pre, mid, post := s[..j], [s[j]], s[j + 1..];
    assert s == pre + (mid + post);
    ValueAppend(pre, mid + post, positions, prices, d);
    ValueAppend(mid, post, positions, prices, d);
    ValueAppend(pre, post, positions, prices, d);
    assert mid[..0] == [];
  }

  /** The order in which the valuation walks the book does not matter:
      two lists of the same tickers, each without repeats, value the book
      alike. */
  lemma {:induction false} ValuePermutation(a: seq<string>, b: seq<string>, positions: map<string, int>,
                                            prices: Prices, d: Date)
    requires Distinct(a) && Distinct(b)
    requires forall t :: t in a <==> t in b
    requires forall t :: t in a ==> t in positions
    ensures Value(a, positions, prices, d) == Value(b, positions, prices, d)
    decreases |a|
  {
    if a == [] {
      ValueUnpriced(b, positions, prices, d);
    } else {
      var n := |a| - 1;
      var init, last := a[..n], a[n];
      assert last in b;
      var j :| 0 <= j < |b| && b[j] == last;
      var rest := b[..j] + b[j + 1..];
      assert forall i :: 0 <= i < |rest| ==> rest[i] == b[if i < j then i else i + 1];
      assert Distinct(rest);
      forall t | t in init ensures t in rest {
        var i :| 0 <= i < n && init[i] == t;
        assert a[i] == t;
        assert t in b;
        var k :| 0 <= k < |b| && b[k] == t;
        assert k != j;
        if k < j {
          assert rest[k] == t;
        } else {
          assert rest[k - 1] == t;
        }
      }
      forall t | t in rest ensures t in init {
        var k :| 0 <= k < |rest| && rest[k] == t;
        var k' := if k < j then k else k + 1;
        assert b[k'] == t;
        assert t in a;
        var i :| 0 <= i < |a| && a[i] == t;
        assert i != n;
        assert init[i] == t;
      }
      ValuePermutation(init, rest, positions, prices, d);
      ValueRemove(b, j, positions, prices, d);
    }
  }
}
