/** The mutable maps of backend/providers/symbol_mapper.py. */
module SymbolMapsObject {
  import opened Prelude
  import opened SymbolMapper

  class SymbolMaps {
    var symbols: map<string, Mapping>
    var tokenToCanonical: map<string, string>
    var ambiguous: set<string>
    var tradingToCanonical: map<string, string>
    var baseToCanonical: map<string, string>
    /** The index entries the maps start with, and every usable row loaded since. */
    ghost const seeds: seq<Row>
    ghost var loaded: seq<Row>

    ghost predicate Valid()
      reads this
    {
      && symbols == SymbolsOf(seeds + loaded)
      && TokenIndex(tokenToCanonical, ambiguous) == Indexed(seeds + loaded)
      && tradingToCanonical == TradingsOf(seeds, loaded)
      && baseToCanonical == BasesOf(loaded)
    }

    constructor ()
      ensures Valid() && loaded == [] && seeds == SEEDS
    {
      symbols, tokenToCanonical, ambiguous := map[], map[], {};
      tradingToCanonical, baseToCanonical, loaded := map[], map[], [];
      seeds := SEEDS;
      new;
      for i := 0 to |SEEDS|
        invariant symbols == SymbolsOf(SEEDS[..i])
        invariant TokenIndex(tokenToCanonical, {}) == Indexed(SEEDS[..i])
        invariant tradingToCanonical == SeedTradings(SEEDS[..i])
        invariant ambiguous == {} && baseToCanonical == map[] && loaded == []
      {
        SeedTokensNext(i);
        SeedSymbolsNext(i);
        var r := SEEDS[i];
        symbols := symbols[r.canonical := r.mapping];
        tokenToCanonical := tokenToCanonical[r.mapping.token := r.canonical];
        tokenToCanonical := tokenToCanonical[Scoped(r.mapping.exchange, r.mapping.token) := r.canonical];
        tradingToCanonical := tradingToCanonical[r.mapping.tradingSymbol := r.canonical];
      }
      assert SEEDS[..|SEEDS|] == SEEDS == seeds + loaded;
    }

    /** Adds the usable contracts of a batch, in order, to everything loaded before. */
    method LoadZebuContracts(contracts: seq<Contract>) returns (count: nat)
      requires Valid()
      modifies this
      ensures Valid() && loaded == old(loaded) + Rows(contracts) && count == |Rows(contracts)|
    {
      count := 0;
      ghost var was, read := loaded, [];
      for i := 0 to |contracts|
        invariant Valid() && loaded == was + read && count == |read|
        invariant read == Rows(contracts[..i])
      {
        RowsNext(contracts, i);
        var row := RowOf(contracts[i]);
        if row.None? {
          continue;
        }
        AddRow(row.value);
        assert was + (read + [row.value]) == was + read + [row.value];
        read := read + [row.value];
        count := count + 1;
      }
      assert contracts[..|contracts|] == contracts;
    }

    /** The body of the loading loop for a usable contract. */
    method AddRow(r: Row)
      requires Valid()
      modifies this
      ensures Valid() && loaded == old(loaded) + [r]
    {
      TokensNext(seeds, loaded, r);
      SymbolsNext(seeds, loaded, r);
      NamesNext(seeds, loaded, r);
      symbols := symbols[r.canonical := r.mapping];
      AddTokenEntry(r);
      AddNames(r);
      if ServesLegacy(r) {
        symbols := symbols[LEGACY_CANONICAL := r.mapping];
      }
      loaded := loaded + [r];
    }

    /** The token part: marks a clash, and writes or withdraws the bare entry and the scoped one. */
    method AddTokenEntry(r: Row)
      modifies this`tokenToCanonical, this`ambiguous
      ensures TokenIndex(tokenToCanonical, ambiguous) == AddToken(TokenIndex(old(tokenToCanonical), old(ambiguous)), r)
    {
      var token := r.mapping.token;
      var existing := Get(tokenToCanonical, token);
      if existing.Some? && existing.value != "" && existing.value != r.canonical {
        ambiguous := ambiguous + {token};
      }
      if token in ambiguous {
        tokenToCanonical := tokenToCanonical - {token};
      } else {
        tokenToCanonical := tokenToCanonical[token := r.canonical];
      }
      tokenToCanonical := tokenToCanonical[Scoped(r.mapping.exchange, token) := r.canonical];
    }

    /** The trading and base symbols, a renamed share's old ones included. */
    method AddNames(r: Row)
      modifies this`tradingToCanonical, this`baseToCanonical
      ensures tradingToCanonical == WithTrading(old(tradingToCanonical), r)
      ensures baseToCanonical == WithBase(old(baseToCanonical), r)
    {
      var trading := r.mapping.tradingSymbol;
      tradingToCanonical := tradingToCanonical[trading := r.canonical];
      tradingToCanonical := tradingToCanonical[Upper(trading) := r.canonical];
      baseToCanonical := baseToCanonical[Upper(r.symbol) := r.canonical];
      if r.mapping.exchange == "NSE" && Upper(r.symbol) == LIVE_BASE {
        baseToCanonical := baseToCanonical[LEGACY_BASE := LEGACY_CANONICAL];
        tradingToCanonical := tradingToCanonical[LEGACY_BASE + "-EQ" := LEGACY_CANONICAL];
      }
    }

    method ZebuTokenToCanonical(token: string, exchange: Option<string>) returns (canonical: Option<string>)
      requires Valid()
      ensures canonical == Resolve(Indexed(seeds + loaded), token, exchange)
    {
      var tok := Strip(token);
      if tok == "" {
        return None;
      }
      if exchange.Some? && exchange.value != "" {
        var exch := Upper(Strip(exchange.value));
        if exch != "" {
          var mapped := Get(tokenToCanonical, Scoped(exch, tok));
          if mapped.Some? && mapped.value != "" {
            return mapped;
          }
        }
      }
      if tok in ambiguous {
        return None;
      }
      canonical := Get(tokenToCanonical, tok);
    }
  }

  lemma RowsNext(contracts: seq<Contract>, i: nat)
    requires i < |contracts|
    ensures var row := RowOf(contracts[i]);
      Rows(contracts[..i + 1]) == if row.Some? then Rows(contracts[..i]) + [row.value] else Rows(contracts[..i])
  {
    assert contracts[..i + 1][..i] == contracts[..i];
  }

  lemma TokensNext(seeds: seq<Row>, loaded: seq<Row>, r: Row)
    ensures Indexed(seeds + (loaded + [r])) == AddToken(Indexed(seeds + loaded), r)
  {
    assert seeds + (loaded + [r]) == seeds + loaded + [r];
    assert (seeds + loaded + [r])[..|seeds + loaded|] == seeds + loaded;
  }

  lemma SymbolsNext(seeds: seq<Row>, loaded: seq<Row>, r: Row)
    ensures var symbols := SymbolsOf(seeds + loaded)[r.canonical := r.mapping];
      SymbolsOf(seeds + (loaded + [r])) ==
      if ServesLegacy(r) then symbols[LEGACY_CANONICAL := r.mapping] else symbols
  {
    assert seeds + (loaded + [r]) == seeds + loaded + [r];
    assert (seeds + loaded + [r])[..|seeds + loaded|] == seeds + loaded;
  }

  lemma NamesNext(seeds: seq<Row>, loaded: seq<Row>, r: Row)
    ensures TradingsOf(seeds, loaded + [r]) == WithTrading(TradingsOf(seeds, loaded), r)
    ensures BasesOf(loaded + [r]) == WithBase(BasesOf(loaded), r)
  {
    assert (loaded + [r])[..|loaded|] == loaded;
  }
}
