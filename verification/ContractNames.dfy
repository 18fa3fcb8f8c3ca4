/**
 * Which canonical and trading symbol a contract loaded by backend/providers/symbol_mapper.py gets, and
 * what its token resolves to afterwards.
 */
module ContractNames {
  import opened Prelude
  import opened SymbolMapper

  /** A contract that is not skipped. */
  predicate Loadable(c: Contract) {
    Strip(c.symbol) != "" && Strip(c.token) != ""
  }

  /** The exchange of a contract; a missing one is NSE. */
  function ExchangeOf(c: Contract): string {
    match c.exchange
    case None => "NSE"
    case Some(exchange) => Upper(Strip(exchange))
  }

  predicate Commodity(exchange: string) {
    exchange == "MCX" || exchange == "NCDEX"
  }

  predicate Derivative(exchange: string) {
    exchange == "NFO" || exchange == "BFO" || exchange == "CDS" || exchange == "NSE_FO" || exchange == "BSE_FO"
  }

  /** The history after a batch that ends with this contract. */
  ghost predicate LoadedLast(rows: seq<Row>, history: seq<Row>, contracts: seq<Contract>, c: Contract) {
    contracts != [] && contracts[|contracts| - 1] == c && rows == history + Rows(contracts)
  }

  /** The trading symbol a contract states, if it is not blank. */
  function StatedTrading(c: Contract, fallback: string): string {
    match c.tradingSymbol
    case None => fallback
    case Some(trading) => if Strip(trading) == "" then fallback else Strip(trading)
  }

  lemma LastRow(rows: seq<Row>, history: seq<Row>, contracts: seq<Contract>, c: Contract)
    requires LoadedLast(rows, history, contracts, c) && Loadable(c)
    ensures RowOf(c).Some? && rows != [] && rows[|rows| - 1] == RowOf(c).value
  {
  }

  /** A contract's own row answers look-ups of its token on its exchange. */
  lemma TokenAnswers(rows: seq<Row>, c: Contract)
    requires RowOf(c).Some? && rows != [] && rows[|rows| - 1] == RowOf(c).value && ExchangeOf(c) != ""
    ensures Resolve(Indexed(rows), c.token, Some(ExchangeOf(c))) == Some(RowOf(c).value.canonical)
  {
    var r := RowOf(c).value;
    CleanExchange(if c.exchange.Some? then c.exchange.value else "NSE");
    PlainExchange();
    assert Scoped(r.mapping.exchange, r.mapping.token) in Indexed(rows).canonicals;
  }

  lemma PlainExchange()
    ensures Upper(Strip("NSE")) == "NSE"
  {
  }

  lemma CanonicalOf(c: Contract)
    requires Loadable(c)
    ensures RowOf(c).Some?
    ensures var symbol, exchange, canonical := Strip(c.symbol), ExchangeOf(c), RowOf(c).value.canonical;
      if Strip(c.canonical) != "" then canonical == Upper(Strip(c.canonical))
      else if exchange == "NSE" then canonical == symbol + ".NS"
      else if Commodity(exchange) || Derivative(exchange) then canonical == Upper(symbol)
      else canonical == symbol + ".BO"
  {
    PlainExchange();
  }

  /** A contract that is not skipped enters the index under its stripped token; the others change nothing. */
  lemma SkippedExactly(contracts: seq<Contract>, c: Contract)
    ensures Rows(contracts + [c]) == Rows(contracts) <==> !Loadable(c)
    ensures Loadable(c) ==> |Rows(contracts + [c])| == |Rows(contracts)| + 1
  {
    assert (contracts + [c])[..|contracts|] == contracts;
  }

  /**
   * What the token of the contract loaded last resolves to on its exchange: the canonical symbol it
   * states, in capitals; or else its stripped symbol, with .NS on NSE, in capitals on the commodity and
   * derivative exchanges, and with .BO on any other.
   */
  lemma TokenResolves(rows: seq<Row>, history: seq<Row>, contracts: seq<Contract>, c: Contract)
    requires LoadedLast(rows, history, contracts, c) && Loadable(c) && ExchangeOf(c) != ""
    ensures var symbol, exchange := Strip(c.symbol), ExchangeOf(c);
      var answer := Resolve(Indexed(rows), c.token, Some(exchange));
      if Strip(c.canonical) != "" then answer == Some(Upper(Strip(c.canonical)))
      else if exchange == "NSE" then answer == Some(symbol + ".NS")
      else if Commodity(exchange) || Derivative(exchange) then answer == Some(Upper(symbol))
      else answer == Some(symbol + ".BO")
  {
    LastRow(rows, history, contracts, c);
    TokenAnswers(rows, c);
    CanonicalOf(c);
  }

  /** The canonical symbol leads to the contract, under the given trading symbol. */
  predicate Leads(symbols: map<string, Mapping>, canonical: string, trading: string, c: Contract) {
    canonical in symbols && symbols[canonical] == Mapping(trading, Strip(c.token), ExchangeOf(c))
  }

  /**
   * The same symbols lead back to the contract. Its trading symbol is the one it states, stripped except
   * on the commodity exchanges; or else the symbol, in capitals on the commodity and derivative
   * exchanges, and with -EQ on the others unless the contract states its canonical symbol.
   */
  lemma SymbolLeadsBack(rows: seq<Row>, history: seq<Row>, contracts: seq<Contract>, c: Contract)
    requires LoadedLast(rows, history, contracts, c) && Loadable(c)
    ensures var symbol, exchange, symbols := Strip(c.symbol), ExchangeOf(c), SymbolsOf(rows);
      if Strip(c.canonical) != "" then Leads(symbols, Upper(Strip(c.canonical)), StatedTrading(c, symbol), c)
      else if exchange == "NSE" then Leads(symbols, symbol + ".NS", StatedTrading(c, symbol + "-EQ"), c)
      else if Commodity(exchange) then
        Leads(symbols, Upper(symbol), if c.tradingSymbol.Some? then c.tradingSymbol.value else Upper(symbol), c)
      else if Derivative(exchange) then Leads(symbols, Upper(symbol), StatedTrading(c, Upper(symbol)), c)
      else Leads(symbols, symbol + ".BO", StatedTrading(c, symbol + "-EQ"), c)
  {
    LastRow(rows, history, contracts, c);
    PlainExchange();
    var r := RowOf(c).value;
    assert r.canonical in SymbolsOf(rows) && SymbolsOf(rows)[r.canonical] == r.mapping;
  }

  lemma UntidyText()
    ensures Strip(" 2885 ") == "2885" && Upper(Strip("nse ")) == "NSE"
  {
    assert " 2885 "[1..] == "2885 " && "2885 "[..4] == "2885";
    assert "nse "[..3] == "nse";
    assert Strip("nse") == "nse" && Upper("nse") == "NSE";
  }

  /** The documented example: RELIANCE on NSE, token 2885, asked for in whatever case and between blanks. */
  lemma RelianceResolves(history: seq<Row>) returns (c: Contract)
    ensures c == Contract("RELIANCE", "2885", Some("NSE"), "", None)
    ensures Resolve(Indexed(history + Rows([c])), "2885", Some("NSE")) == Some("RELIANCE.NS")
    ensures Resolve(Indexed(history + Rows([c])), " 2885 ", Some("nse ")) == Some("RELIANCE.NS")
    ensures "RELIANCE.NS" in SymbolsOf(history + Rows([c]))
    ensures SymbolsOf(history + Rows([c]))["RELIANCE.NS"] == Mapping("RELIANCE-EQ", "2885", "NSE")
  {
    c := Contract("RELIANCE", "2885", Some("NSE"), "", None);
    PlainExchange();
    UntidyText();
    assert "RELIANCE" + ".NS" == "RELIANCE.NS" && "RELIANCE" + "-EQ" == "RELIANCE-EQ";
    assert Strip("RELIANCE") == "RELIANCE" && Strip("2885") == "2885";
    TokenResolves(history + Rows([c]), history, [c], c);
    SymbolLeadsBack(history + Rows([c]), history, [c], c);
  }

  /** The share renamed to TMPV is still found under its old ticker. */
  lemma RenamedShare(rows: seq<Row>, history: seq<Row>, contracts: seq<Contract>, c: Contract, seeds: seq<Row>)
    requires LoadedLast(rows, history, contracts, c) && Loadable(c)
    requires Upper(Strip(c.symbol)) == "TMPV" && ExchangeOf(c) == "NSE"
    ensures "TATAMOTORS.NS" in SymbolsOf(rows) && SymbolsOf(rows)["TATAMOTORS.NS"] == RowOf(c).value.mapping
    ensures RowOf(c).value.mapping.token == Strip(c.token) && RowOf(c).value.mapping.exchange == "NSE"
    ensures Get(BasesOf(rows), "TATAMOTORS") == Some("TATAMOTORS.NS")
    ensures Get(TradingsOf(seeds, rows), "TATAMOTORS-EQ") == Some("TATAMOTORS.NS")
  {
    LastRow(rows, history, contracts, c);
    PlainExchange();
    assert LEGACY_BASE + "-EQ" == "TATAMOTORS-EQ";
    assert ServesLegacy(RowOf(c).value);
  }

  // ---------- The indices known from the start ----------

  lemma OnlyCanonical(rows: seq<Row>, i: nat)
    requires i < |rows| && forall j, k :: 0 <= j < k < |rows| ==> rows[j].mapping.token != rows[k].mapping.token
    ensures CanonicalsOf(rows, rows[i].mapping.token) == {rows[i].canonical}
  {
    var token := rows[i].mapping.token;
    CanonicalsAre(rows, token);
    assert rows[i] in rows;
    forall c | c in CanonicalsOf(rows, token) ensures c == rows[i].canonical {
      var r :| r in rows && r.mapping.token == token && r.canonical == c;
      var k :| 0 <= k < |rows| && rows[k] == r;
    }
  }

  lemma SeedCanonicals(i: nat)
    requires i < |SEEDS|
    ensures CanonicalsOf(SEEDS, SEEDS[i].mapping.token) == {SEEDS[i].canonical}
  {
    forall j, k | 0 <= j < k < |SEEDS| ensures SEEDS[j].mapping.token != SEEDS[k].mapping.token {
      SeedsAreDistinct(j, k);
    }
    OnlyCanonical(SEEDS, i);
  }

  /** Before anything is loaded each index token resolves to its index, with its exchange or without. */
  lemma SeedResolves(i: nat)
    requires i < |SEEDS|
    ensures var r := SEEDS[i];
      && Resolve(Indexed(SEEDS), r.mapping.token, None) == Some(r.canonical)
      && Resolve(Indexed(SEEDS), r.mapping.token, Some(r.mapping.exchange)) == Some(r.canonical)
  {
    var r := SEEDS[i];
    SeedCanonicals(i);
    SeedsArePlain(i);
    forall s | s in SEEDS ensures Plain(s.mapping.token) {
      var k :| 0 <= k < |SEEDS| && SEEDS[k] == s;
      SeedsArePlain(k);
    }
    SeedIsClean(r);
    PlainLookUpsAreHarmless(SEEDS, r.mapping.exchange, r.mapping.token);
    ResolvesExactly(SEEDS, r.mapping.token, None);
    ResolvesExactly(SEEDS, r.mapping.token, Some(r.mapping.exchange));
    LatestHasCanonical(SEEDS, r.mapping.exchange, r.mapping.token);
  }

  lemma LatestHasCanonical(rows: seq<Row>, exchange: string, token: string)
    ensures var latest := LatestFor(rows, exchange, token);
      latest.Some? ==> latest.value in CanonicalsOf(rows, token)
  {
    if LatestFor(rows, exchange, token).Some? {
      LatestIsLoaded(rows, exchange, token);
      CanonicalsAre(rows, token);
    }
  }

  lemma IndexTokens()
    ensures Resolve(Indexed(SEEDS), "26000", None) == Some("^NSEI")
    ensures Resolve(Indexed(SEEDS), "26009", None) == Some("^NSEBANK")
    ensures Resolve(Indexed(SEEDS), "1", None) == Some("^BSESN")
  {
    SeedResolves(0);
    SeedResolves(1);
    SeedResolves(3);
  }
}
