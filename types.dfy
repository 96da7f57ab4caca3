/** Values handled by the daily ledger engine: transactions, the price
    surface, the balance sheet (book) and the per-day ledger row. */
module LedgerTypes {

  /** Trading days are ordered integers (one per calendar date). */
  type Date = int

  /** The operation kind of a transaction, after lower-casing its "Type"
      column: "achat", "vente", "short", "rachat"; anything else is Other. */
  datatype Kind = Achat | Vente | Short | Rachat | Other

  /** One row of the transaction log: date, ticker, number of shares,
      local unit price and fee. */
  datatype Tx = Tx(date: Date, ticker: string, nb: int, prix: real, frais: real, kind: Kind)

  /** The sparse price surface: (date, ticker) -> unit price. A missing
      pair is an unpriced ticker on that day (a NaN cell of the pivot). */
  type Prices = map<(Date, string), real>

  /** The balance sheet the engine mutates: signed share count per ticker
      and the running cash balance. */
  datatype Book = Book(positions: map<string, int>, cash: real)

  /** The per-day counters and totals accumulated over that day's
      transactions ("Nombre d'Achats" ... "Montant_Recupere"). */
  datatype Tally = Tally(
    nAchats: nat, nVentes: nat, nShorts: nat, nRachats: nat,
    frais: real, investi: real, recupere: real)

  /** One ledger row: the day's tally, the value of the securities
      ("Valeur_Titres"), the closing cash, the net asset value
      ("Valeur Liquidative") and a copy of the position book. */
  datatype Row = Row(
    date: Date, tally: Tally,
    securities: real, cash: real, nav: real,
    positions: map<string, int>)
}
