/** The contract maps of backend/providers/symbol_mapper.py. */
module SymbolMapper {
  import opened Prelude

  // ---------- Strings, for ASCII ----------

  predicate IsSpace(c: char) {
    c == ' ' || '\t' <= c <= '\r' || '\U{1c}' <= c <= '\U{1f}'
  }

  function Strip(s: string): string {
    if s == "" then ""
    else if IsSpace(s[0]) then Strip(s[1..])
    else if IsSpace(s[|s| - 1]) then Strip(s[..|s| - 1])
    else s
  }

  function UpperChar(c: char): char {
    if 'a' <= c <= 'z' then c - 'a' + 'A' else c
  }

  function Upper(s: string): (t: string)
    ensures |t| == |s|
  {
    seq(|s|, i requires 0 <= i < |s| => UpperChar(s[i]))
  }

  function Get<V>(m: map<string, V>, key: string): Option<V> {
    if key in m then Some(m[key]) else None
  }

  // ---------- Contracts ----------

  /** A row of a master contract file; the fields with a default other than "" are optional. */
  datatype Contract = Contract(symbol: string, token: string, exchange: Option<string>, canonical: string,
                               tradingSymbol: Option<string>)

  datatype Mapping = Mapping(tradingSymbol: string, token: string, exchange: string)

  /** A usable contract with its fields cleaned and its canonical and trading symbols worked out. */
  datatype RowFields = RowFields(symbol: string, canonical: string, mapping: Mapping)

  type Row = r: RowFields | r.symbol != "" && r.canonical != "" && r.mapping.token != ""
    witness RowFields("GOLD", "GOLD", Mapping("GOLD", "1", "MCX"))

  function OrElse(s: string, fallback: string): string {
    if s != "" then s else fallback
  }

  /** Canonical and trading symbol of a contract, by its exchange unless the canonical symbol is given. */
  function NamesOf(sym: string, exchange: string, canonical: string, tradingSymbol: Option<string>): (names: (string, string))
    requires sym != ""
    ensures names.0 != ""
  {
    var trading := if tradingSymbol.Some? then Strip(tradingSymbol.value) else "";
    if canonical != "" then (Upper(canonical), OrElse(trading, sym))
    else if exchange in {"MCX", "NCDEX"} then
      (Upper(sym), if tradingSymbol.Some? then tradingSymbol.value else Upper(sym))
    else if exchange in {"NFO", "BFO", "CDS", "NSE_FO", "BSE_FO"} then (Upper(sym), OrElse(trading, Upper(sym)))
    else if exchange == "NSE" then (sym + ".NS", OrElse(trading, sym + "-EQ"))
    else (sym + ".BO", OrElse(trading, sym + "-EQ"))
  }

  /** A contract without a symbol or a token is skipped. */
  function RowOf(c: Contract): Option<Row> {
    var sym, token := Strip(c.symbol), Strip(c.token);
    var exchange := Upper(Strip(if c.exchange.Some? then c.exchange.value else "NSE"));
    if sym == "" || token == "" then None
    else
      var names := NamesOf(sym, exchange, Strip(c.canonical), c.tradingSymbol);
      Some(RowFields(sym, names.0, Mapping(names.1, token, exchange)))
  }

  function Rows(contracts: seq<Contract>): seq<Row> {
    if contracts == [] then []
    else
      var before, last := Rows(contracts[..|contracts| - 1]), RowOf(contracts[|contracts| - 1]);
      if last.Some? then before + [last.value] else before
  }

  // ---------- The token index ----------

  datatype TokenIndex = TokenIndex(canonicals: map<string, string>, ambiguous: set<string>)

  function Scoped(exchange: string, token: string): string {
    exchange + "|" + token
  }

  /** A token met again under another canonical symbol is ambiguous from then on. */
  function AddToken(ix: TokenIndex, r: Row): TokenIndex {
    var token := r.mapping.token;
    var existing := Get(ix.canonicals, token);
    var clash := existing.Some? && existing.value != "" && existing.value != r.canonical;
    var ambiguous := if clash then ix.ambiguous + {token} else ix.ambiguous;
    var bare := if token in ambiguous then ix.canonicals - {token} else ix.canonicals[token := r.canonical];
    TokenIndex(bare[Scoped(r.mapping.exchange, token) := r.canonical], ambiguous)
  }

  function Indexed(rows: seq<Row>): TokenIndex {
    if rows == [] then TokenIndex(map[], {}) else AddToken(Indexed(rows[..|rows| - 1]), rows[|rows| - 1])
  }

  /** The exchange-scoped entry if there is one, else the bare token's unless it is ambiguous. */
  function Resolve(ix: TokenIndex, token: string, exchange: Option<string>): Option<string> {
    var tok := Strip(token);
    var exch := if exchange.Some? then Upper(Strip(exchange.value)) else "";
    var scoped := if exch != "" then Get(ix.canonicals, Scoped(exch, tok)) else None;
    if tok == "" then None
    else if scoped.Some? && scoped.value != "" then scoped
    else if tok in ix.ambiguous then None
    else Get(ix.canonicals, tok)
  }

  // ---------- What the token index says about the rows loaded ----------

  /** The canonical symbols a token was loaded with, on any exchange. */
  function CanonicalsOf(rows: seq<Row>, token: string): set<string> {
    if rows == [] then {}
    else
      var r := rows[|rows| - 1];
      CanonicalsOf(rows[..|rows| - 1], token) + if r.mapping.token == token then {r.canonical} else {}
  }

  /** The canonical symbol of the last row loaded for a token on an exchange. */
  function LatestFor(rows: seq<Row>, exchange: string, token: string): Option<string> {
    if rows == [] then None
    else
      var r := rows[|rows| - 1];
      if r.mapping.token == token && r.mapping.exchange == exchange then Some(r.canonical)
      else LatestFor(rows[..|rows| - 1], exchange, token)
  }

  predicate Plain(token: string) {
    '|' !in token
  }

  lemma ScopedIsNotPlain(exchange: string, token: string)
    ensures !Plain(Scoped(exchange, token))
  {
    assert Scoped(exchange, token)[|exchange|] == '|';
  }

  lemma {:induction false} NothingEmpty(rows: seq<Row>)
    ensures forall key :: key in Indexed(rows).canonicals ==> Indexed(rows).canonicals[key] != ""
    decreases |rows|
  {
    if rows != [] {
      NothingEmpty(rows[..|rows| - 1]);
    }
  }

  /** The bare entry and the ambiguity mark a token has when these are its canonical symbols. */
  predicate Tracks(ix: TokenIndex, token: string, canonicals: set<string>) {
    if |canonicals| >= 2 then token in ix.ambiguous && token !in ix.canonicals
    else token !in ix.ambiguous && (if token in ix.canonicals then canonicals == {ix.canonicals[token]} else canonicals == {})
  }

  lemma TracksNext(ix: TokenIndex, token: string, canonicals: set<string>, r: Row)
    requires Tracks(ix, token, canonicals)
    requires token in ix.canonicals ==> ix.canonicals[token] != ""
    ensures Tracks(AddToken(ix, r), token, canonicals + if r.mapping.token == token then {r.canonical} else {})
       <==> (Scoped(r.mapping.exchange, r.mapping.token) == token ==> canonicals == {r.canonical})
  {
    assert |Scoped(r.mapping.exchange, r.mapping.token)| > |r.mapping.token|;
    if r.mapping.token != token {
      assert canonicals + {} == canonicals;
    } else if |canonicals| >= 2 {
      assert canonicals + {r.canonical} == if r.canonical in canonicals then canonicals else canonicals + {r.canonical};
    } else if token in ix.canonicals && ix.canonicals[token] != r.canonical {
      assert canonicals + {r.canonical} == {ix.canonicals[token], r.canonical};
    } else {
      assert canonicals + {r.canonical} == {r.canonical};
    }
  }

  /** What holds after every part of a history, and of every row in view of those before it. */
  ghost predicate Throughout(sound: seq<Row> -> bool, rows: seq<Row>) {
    forall n :: 0 <= n <= |rows| ==> sound(rows[..n])
  }

  ghost predicate EachRow(harmless: (seq<Row>, Row) -> bool, rows: seq<Row>) {
    forall n :: 0 <= n < |rows| ==> harmless(rows[..n], rows[n])
  }

  lemma ThroughoutNext(sound: seq<Row> -> bool, harmless: (seq<Row>, Row) -> bool, before: seq<Row>, r: Row)
    ensures Throughout(sound, before + [r]) <==> Throughout(sound, before) && sound(before + [r])
    ensures EachRow(harmless, before + [r]) <==> EachRow(harmless, before) && harmless(before, r)
  {
    var rows := before + [r];
    assert forall n :: 0 <= n <= |before| ==> rows[..n] == before[..n];
    assert rows[..|rows|] == rows && rows[..|before|] == before && rows[|before|] == r;
    if Throughout(sound, rows) {
      assert sound(rows[..|rows|]);
      assert forall n :: 0 <= n <= |before| ==> sound(rows[..n]);
    }
    if EachRow(harmless, rows) {
      assert harmless(rows[..|before|], rows[|before|]);
      assert forall n :: 0 <= n < |before| ==> harmless(rows[..n], rows[n]);
    }
  }

  lemma ThroughoutNow(sound: seq<Row> -> bool, rows: seq<Row>)
    requires Throughout(sound, rows)
    ensures sound(rows)
  {
    assert rows[..|rows|] == rows;
  }

  function BareSound(token: string): seq<Row> -> bool {
    (rows: seq<Row>) => Tracks(Indexed(rows), token, CanonicalsOf(rows, token))
  }

  /** A row whose scoped key is the token itself repeats the one canonical symbol the token has. */
  function BareHarmless(token: string): (seq<Row>, Row) -> bool {
    (before: seq<Row>, r: Row) => Scoped(r.mapping.exchange, r.mapping.token) == token ==> CanonicalsOf(before, token) == {r.canonical}
  }

  /**
   * A token's bare entry and ambiguity mark reflect the rows loaded with it all through a history
   * exactly when every row whose scoped key is the token repeats the token's one canonical symbol.
   */
  lemma {:induction false} BareEntryThroughout(rows: seq<Row>, token: string)
    ensures Throughout(BareSound(token), rows) <==> EachRow(BareHarmless(token), rows)
    decreases |rows|
  {
    if rows == [] {
      assert rows[..0] == [];
    } else {
      var before, r := rows[..|rows| - 1], rows[|rows| - 1];
      assert rows == before + [r];
      BareEntryThroughout(before, token);
      ThroughoutNext(BareSound(token), BareHarmless(token), before, r);
      if Throughout(BareSound(token), before) {
        ThroughoutNow(BareSound(token), before);
        NothingEmpty(before);
        IndexedNext(before, r, token);
        TracksNext(Indexed(before), token, CanonicalsOf(before, token), r);
      }
    }
  }

  lemma IndexedNext(before: seq<Row>, r: Row, token: string)
    ensures Indexed(before + [r]) == AddToken(Indexed(before), r)
    ensures CanonicalsOf(before + [r], token)
         == CanonicalsOf(before, token) + if r.mapping.token == token then {r.canonical} else {}
  {
    assert (before + [r])[..|before|] == before;
  }

  lemma IndexTracks(rows: seq<Row>, token: string)
    requires EachRow(BareHarmless(token), rows)
    ensures Tracks(Indexed(rows), token, CanonicalsOf(rows, token))
  {
    BareEntryThroughout(rows, token);
    ThroughoutNow(BareSound(token), rows);
  }

  /** A token without a `|` is nobody's scoped key. */
  lemma PlainIsHarmless(rows: seq<Row>, token: string)
    requires Plain(token)
    ensures EachRow(BareHarmless(token), rows)
  {
    forall n | 0 <= n < |rows| ensures BareHarmless(token)(rows[..n], rows[n]) {
      ScopedIsNotPlain(rows[n].mapping.exchange, rows[n].mapping.token);
    }
  }

  /**
   * A token, without a `|` for one, has a bare entry exactly when every row ever loaded with it, on
   * whatever exchange, named one and the same canonical symbol; it is ambiguous exactly when two differ.
   */
  lemma BareEntryExactly(rows: seq<Row>, token: string)
    requires EachRow(BareHarmless(token), rows)
    ensures forall c :: Get(Indexed(rows).canonicals, token) == Some(c) <==> CanonicalsOf(rows, token) == {c}
    ensures token in Indexed(rows).ambiguous <==>
            exists r, other :: r in rows && other in rows && r.mapping.token == token == other.mapping.token
                               && r.canonical != other.canonical
  {
    IndexTracks(rows, token);
    CanonicalsAre(rows, token);
    var all := CanonicalsOf(rows, token);
    if |all| >= 2 {
      var a :| a in all;
      assert all - {a} != {} by {
        assert |all - {a}| >= 1;
      }
      var b :| b in all - {a};
      var r :| r in rows && r.mapping.token == token && r.canonical == a;
      var other :| other in rows && other.mapping.token == token && other.canonical == b;
    } else {
      forall c | all == {c} ensures Get(Indexed(rows).canonicals, token) == Some(c) {
        assert c in all;
      }
      forall r, other | r in rows && other in rows && r.mapping.token == token == other.mapping.token
        ensures r.canonical == other.canonical
      {
        assert {r.canonical, other.canonical} <= all;
        AtMostOne(all, r.canonical, other.canonical);
      }
    }
  }

  lemma AtMostOne(s: set<string>, a: string, b: string)
    requires |s| < 2 && a in s && b in s
    ensures a == b
  {
    var rest := s - {a};
    assert |rest| == 0;
    assert b !in rest;
  }

  lemma {:induction false} CanonicalsAre(rows: seq<Row>, token: string)
    ensures forall r :: r in rows && r.mapping.token == token ==> r.canonical in CanonicalsOf(rows, token)
    ensures forall c :: c in CanonicalsOf(rows, token) ==>
              exists r :: r in rows && r.mapping.token == token && r.canonical == c
    decreases |rows|
  {
    if rows != [] {
      var before, last := rows[..|rows| - 1], rows[|rows| - 1];
      CanonicalsAre(before, token);
      assert rows == before + [last];
      forall c | c in CanonicalsOf(rows, token)
        ensures exists r :: r in rows && r.mapping.token == token && r.canonical == c
      {
        if c in CanonicalsOf(before, token) {
          var r :| r in before && r.mapping.token == token && r.canonical == c;
          assert r in rows;
        } else {
          assert last in rows;
        }
      }
    }
  }

  // ---------- Exchange-scoped entries ----------

  /** The entry of a pair is the canonical symbol of the last row loaded for that pair. */
  predicate Sound(rows: seq<Row>, exchange: string, token: string) {
    Get(Indexed(rows).canonicals, Scoped(exchange, token)) == LatestFor(rows, exchange, token)
  }

  function SoundFor(exchange: string, token: string): seq<Row> -> bool {
    (rows: seq<Row>) => Sound(rows, exchange, token)
  }

  /** A row for something else that writes the pair's key, as its own bare or its own scoped key. */
  predicate Collides(r: Row, exchange: string, token: string) {
    && !(r.mapping.exchange == exchange && r.mapping.token == token)
    && (r.mapping.token == Scoped(exchange, token) || Scoped(r.mapping.exchange, r.mapping.token) == Scoped(exchange, token))
  }

  function Harmless(exchange: string, token: string): (seq<Row>, Row) -> bool {
    (before: seq<Row>, r: Row) => Collides(r, exchange, token) ==> LatestFor(before, exchange, token) == Some(r.canonical)
  }

  lemma EntryAfter(ix: TokenIndex, r: Row, key: string)
    requires key !in ix.ambiguous && (key in ix.canonicals ==> ix.canonicals[key] != "")
    ensures var next, held := AddToken(ix, r), Get(ix.canonicals, key);
      var token, scoped := r.mapping.token, Scoped(r.mapping.exchange, r.mapping.token);
      && (scoped == key || (token == key && held.None?) ==> Get(next.canonicals, key) == Some(r.canonical))
      && (token == key && held.Some? && scoped != key ==>
            Get(next.canonicals, key) == if held == Some(r.canonical) then held else None)
      && (token != key && scoped != key ==> Get(next.canonicals, key) == held)
      && (key in next.ambiguous ==> token == key && held.Some? && held != Some(r.canonical))
  {
    assert |Scoped(r.mapping.exchange, r.mapping.token)| > |r.mapping.token|;
  }

  lemma LatestNext(before: seq<Row>, r: Row, exchange: string, token: string)
    ensures LatestFor(before + [r], exchange, token) ==
            if r.mapping.token == token && r.mapping.exchange == exchange then Some(r.canonical)
            else LatestFor(before, exchange, token)
    ensures Indexed(before + [r]) == AddToken(Indexed(before), r)
  {
    assert (before + [r])[..|before|] == before;
  }

  lemma SoundNext(before: seq<Row>, r: Row, exchange: string, token: string)
    requires Sound(before, exchange, token) && Scoped(exchange, token) !in Indexed(before).ambiguous
    ensures var rows := before + [r];
      && (Sound(rows, exchange, token) <==> Harmless(exchange, token)(before, r))
      && (Sound(rows, exchange, token) ==> Scoped(exchange, token) !in Indexed(rows).ambiguous)
  {
    NothingEmpty(before);
    EntryAfter(Indexed(before), r, Scoped(exchange, token));
    LatestNext(before, r, exchange, token);
    assert |Scoped(exchange, token)| > |token|;
  }

  /**
   * The entry of a pair stays that of the last row loaded for the pair all through a history exactly
   * when each row that writes the pair's key for something else repeats the canonical symbol it holds.
   */
  lemma {:induction false} ScopedEntryExactly(rows: seq<Row>, exchange: string, token: string)
    ensures Throughout(SoundFor(exchange, token), rows) <==> EachRow(Harmless(exchange, token), rows)
    ensures Throughout(SoundFor(exchange, token), rows) ==> Scoped(exchange, token) !in Indexed(rows).ambiguous
    decreases |rows|
  {
    if rows != [] {
      var before, r := rows[..|rows| - 1], rows[|rows| - 1];
      assert rows == before + [r];
      ScopedEntryExactly(before, exchange, token);
      ThroughoutNext(SoundFor(exchange, token), Harmless(exchange, token), before, r);
      if Throughout(SoundFor(exchange, token), before) {
        ThroughoutNow(SoundFor(exchange, token), before);
        SoundNext(before, r, exchange, token);
      }
    }
  }

  /** Without a `|` in any token no row collides, so every scoped entry is the last row's. */
  lemma PlainTokensNeverCollide(rows: seq<Row>, exchange: string, token: string)
    requires Plain(token) && forall r :: r in rows ==> Plain(r.mapping.token)
    ensures Throughout(SoundFor(exchange, token), rows)
  {
    forall n | 0 <= n < |rows| ensures Harmless(exchange, token)(rows[..n], rows[n]) {
      var r := rows[n];
      assert r in rows;
      ScopedIsNotPlain(exchange, token);
      ScopedIsUnique(r.mapping.exchange, r.mapping.token, exchange, token);
    }
    ScopedEntryExactly(rows, exchange, token);
  }

  lemma ScopedIsUnique(a: string, x: string, b: string, y: string)
    requires Plain(x) && Plain(y)
    ensures Scoped(a, x) == Scoped(b, y) ==> a == b && x == y
  {
    var s, t := Scoped(a, x), Scoped(b, y);
    SeparatorIsLast(a, x, |b|);
    SeparatorIsLast(b, y, |a|);
    assert s[|a|] == '|' && t[|b|] == '|';
    assert s[..|a|] == a && t[..|b|] == b && s[|a| + 1..] == x && t[|b| + 1..] == y;
  }

  lemma SeparatorIsLast(exchange: string, token: string, n: nat)
    requires Plain(token)
    ensures var s := Scoped(exchange, token);
      |exchange| < n < |s| ==> s[n] != '|'
  {
    var s := Scoped(exchange, token);
    if |exchange| < n < |s| {
      assert s[n] == token[n - |exchange| - 1];
    }
  }

  /** The exchange a look-up uses, "" for none. */
  function ExchangeFor(exchange: Option<string>): string {
    if exchange.Some? then Upper(Strip(exchange.value)) else ""
  }

  /**
   * What a token resolves to: on a known exchange with an entry, the last row loaded for the pair;
   * otherwise the one canonical symbol all rows with the token agree on. Rows that write the keys
   * looked up for something else have to be harmless, as all are when no token carries a `|`.
   */
  lemma ResolvesExactly(rows: seq<Row>, token: string, exchange: Option<string>)
    requires ExchangeFor(exchange) != "" ==> EachRow(Harmless(ExchangeFor(exchange), Strip(token)), rows)
    requires EachRow(BareHarmless(Strip(token)), rows)
    ensures var tok, exch := Strip(token), ExchangeFor(exchange);
      var latest := if tok != "" && exch != "" then LatestFor(rows, exch, tok) else None;
      var answer := Resolve(Indexed(rows), token, exchange);
      && (latest.Some? ==> answer == latest)
      && (latest.None? ==> forall c :: answer == Some(c) <==> CanonicalsOf(rows, tok) == {c})
  {
    var tok, exch := Strip(token), ExchangeFor(exchange);
    NothingEmpty(rows);
    IndexTracks(rows, tok);
    BareEntryExactly(rows, tok);
    NoEmptyToken(rows);
    if exch != "" {
      ScopedEntryHolds(rows, exch, tok);
    }
  }

  lemma ScopedEntryHolds(rows: seq<Row>, exchange: string, token: string)
    requires EachRow(Harmless(exchange, token), rows)
    ensures Sound(rows, exchange, token)
  {
    ScopedEntryExactly(rows, exchange, token);
    ThroughoutNow(SoundFor(exchange, token), rows);
  }

  /** When no token carries a `|` every look-up of such a token is covered. */
  lemma PlainLookUpsAreHarmless(rows: seq<Row>, exchange: string, token: string)
    requires Plain(token) && forall r :: r in rows ==> Plain(r.mapping.token)
    ensures EachRow(Harmless(exchange, token), rows) && EachRow(BareHarmless(token), rows)
  {
    PlainTokensNeverCollide(rows, exchange, token);
    ScopedEntryExactly(rows, exchange, token);
    PlainIsHarmless(rows, token);
  }

  lemma {:induction false} NoEmptyToken(rows: seq<Row>)
    ensures CanonicalsOf(rows, "") == {}
    decreases |rows|
  {
    if rows != [] {
      NoEmptyToken(rows[..|rows| - 1]);
    }
  }

  /** Once ambiguous, a token asked for without an exchange stays unresolved whatever is loaded next. */
  lemma {:induction false} AmbiguousForever(rows: seq<Row>, more: seq<Row>, token: string)
    requires Strip(token) in Indexed(rows).ambiguous
    ensures Resolve(Indexed(rows + more), token, None) == None
    ensures Strip(token) in Indexed(rows + more).ambiguous
    decreases |more|
  {
    if more == [] {
      assert rows + more == rows;
    } else {
      var last := |more| - 1;
      AmbiguousForever(rows, more[..last], token);
      LatestNext(rows + more[..last], more[last], "", "");
      assert rows + more == rows + more[..last] + [more[last]];
    }
  }

  /**
   * A token with a `|` in it can pass for a pair: loading token `NSE|5` for one company gives
   * exchange NSE, token 5, an entry although no such pair was loaded.
   */
  lemma PipeTokenPassesForPair()
    ensures var r := RowFields("A", "A.BO", Mapping("A-EQ", "NSE|5", "BSE"));
      LatestFor([r], "NSE", "5") == None && Get(Indexed([r]).canonicals, Scoped("NSE", "5")) == Some("A.BO")
  {
    var r: Row := RowFields("A", "A.BO", Mapping("A-EQ", "NSE|5", "BSE"));
    assert [r][..0] == [] && [r][0] == r;
    assert Scoped("NSE", "5") == "NSE|5";
    assert |Scoped("BSE", "NSE|5")| > |"NSE|5"|;
  }

  // ---------- Clean fields ----------

  lemma {:induction false} StripTwice(s: string)
    ensures Strip(Strip(s)) == Strip(s)
    decreases |s|
  {
    if s != "" {
      if IsSpace(s[0]) {
        StripTwice(s[1..]);
      } else if IsSpace(s[|s| - 1]) {
        StripTwice(s[..|s| - 1]);
      }
    }
  }

  lemma UpperSpace(c: char)
    ensures IsSpace(UpperChar(c)) <==> IsSpace(c)
  {
  }

  lemma StripUpper(s: string)
    requires Strip(s) == s
    ensures Strip(Upper(s)) == Upper(s)
  {
    if s != "" {
      UpperSpace(s[0]);
      UpperSpace(s[|s| - 1]);
      StripEnds(s);
    }
  }

  lemma {:induction false} StripShortens(s: string)
    ensures |Strip(s)| <= |s|
    decreases |s|
  {
    if s != "" {
      if IsSpace(s[0]) {
        StripShortens(s[1..]);
      } else if IsSpace(s[|s| - 1]) {
        StripShortens(s[..|s| - 1]);
      }
    }
  }

  lemma StripEnds(s: string)
    requires s != "" && Strip(s) == s
    ensures !IsSpace(s[0]) && !IsSpace(s[|s| - 1])
  {
    StripShortens(s[1..]);
    StripShortens(s[..|s| - 1]);
  }

  predicate Clean(m: Mapping) {
    Strip(m.token) == m.token && Upper(Strip(m.exchange)) == m.exchange
  }

  lemma CleanExchange(raw: string)
    ensures Upper(Strip(Upper(Strip(raw)))) == Upper(Strip(raw))
  {
    var exchange := Strip(raw);
    StripTwice(raw);
    StripUpper(exchange);
    assert Upper(Upper(exchange)) == Upper(exchange);
  }

  lemma RowsAreClean(c: Contract)
    requires RowOf(c).Some?
    ensures Clean(RowOf(c).value.mapping)
  {
    StripTwice(c.token);
    CleanExchange(if c.exchange.Some? then c.exchange.value else "NSE");
  }

  // ---------- The forward map ----------

  const LEGACY_BASE := "TATAMOTORS"
  const LIVE_BASE := "TMPV"
  const LEGACY_CANONICAL := "TATAMOTORS.NS"

  /** An NSE row under the new ticker of a renamed share also serves the old one. */
  predicate ServesLegacy(r: Row) {
    r.mapping.exchange == "NSE" && Upper(r.symbol) == LIVE_BASE
  }

  predicate Names(r: Row, canonical: string) {
    r.canonical == canonical || (ServesLegacy(r) && canonical == LEGACY_CANONICAL)
  }

  function SymbolsOf(rows: seq<Row>): map<string, Mapping> {
    if rows == [] then map[]
    else
      var r := rows[|rows| - 1];
      var symbols := SymbolsOf(rows[..|rows| - 1])[r.canonical := r.mapping];
      if ServesLegacy(r) then symbols[LEGACY_CANONICAL := r.mapping] else symbols
  }

  /** The last row that names a canonical symbol. */
  function LatestNaming(rows: seq<Row>, canonical: string): Option<Row> {
    if rows == [] then None
    else if Names(rows[|rows| - 1], canonical) then Some(rows[|rows| - 1])
    else LatestNaming(rows[..|rows| - 1], canonical)
  }

  lemma {:induction false} ForwardIsLatest(rows: seq<Row>, canonical: string)
    ensures var latest := LatestNaming(rows, canonical);
      && Get(SymbolsOf(rows), canonical) == (if latest.Some? then Some(latest.value.mapping) else None)
      && (latest.Some? ==> latest.value in rows)
    decreases |rows|
  {
    if rows != [] {
      ForwardIsLatest(rows[..|rows| - 1], canonical);
    }
  }

  lemma {:induction false} LoadedPairHasLatest(rows: seq<Row>, r: Row)
    requires r in rows
    ensures LatestFor(rows, r.mapping.exchange, r.mapping.token).Some?
    decreases |rows|
  {
    var last := |rows| - 1;
    if r != rows[last] {
      assert rows == rows[..last] + [rows[last]];
      LoadedPairHasLatest(rows[..last], r);
    }
  }

  /**
   * Subscribing under a canonical symbol and resolving the ticks that come back. With an exchange they
   * always resolve, and to the symbol subscribed under exactly when the last row for that exchange and
   * token has it; without one they do exactly when all rows with the token have it.
   */
  lemma TicksComeBack(rows: seq<Row>, canonical: string)
    requires canonical in SymbolsOf(rows) && Clean(SymbolsOf(rows)[canonical])
    requires var m := SymbolsOf(rows)[canonical];
      && (m.exchange != "" ==> EachRow(Harmless(m.exchange, m.token), rows))
      && (m.exchange == "" ==> EachRow(BareHarmless(m.token), rows))
    ensures var m := SymbolsOf(rows)[canonical];
      var back := Resolve(Indexed(rows), m.token, Some(m.exchange));
      if m.exchange != "" then
        && back.Some? && (exists r :: r in rows && r.mapping.token == m.token && r.canonical == back.value)
        && (back == Some(canonical) <==> LatestFor(rows, m.exchange, m.token) == Some(canonical))
      else
        back == Some(canonical) <==> CanonicalsOf(rows, m.token) == {canonical}
  {
    var m := SymbolsOf(rows)[canonical];
    ForwardIsLatest(rows, canonical);
    var r := LatestNaming(rows, canonical).value;
    assert r in rows && r.mapping == m && m.token != "";
    if m.exchange != "" {
      LoadedPairHasLatest(rows, r);
      ScopedEntryHolds(rows, m.exchange, m.token);
      NothingEmpty(rows);
      LatestIsLoaded(rows, m.exchange, m.token);
    } else {
      ResolvesExactly(rows, m.token, Some(m.exchange));
    }
  }

  lemma {:induction false} LatestIsLoaded(rows: seq<Row>, exchange: string, token: string)
    requires LatestFor(rows, exchange, token).Some?
    ensures exists r :: r in rows && r.mapping.token == token && r.canonical == LatestFor(rows, exchange, token).value
    decreases |rows|
  {
    var last := rows[|rows| - 1];
    if !(last.mapping.token == token && last.mapping.exchange == exchange) {
      LatestIsLoaded(rows[..|rows| - 1], exchange, token);
      var r :| r in rows[..|rows| - 1] && r.mapping.token == token && r.canonical == LatestFor(rows, exchange, token).value;
      assert r in rows;
    } else {
      assert last in rows;
    }
  }

  // ---------- Trading and base symbols ----------

  function WithTrading(tradings: map<string, string>, r: Row): map<string, string> {
    var trading := r.mapping.tradingSymbol;
    var both := tradings[trading := r.canonical][Upper(trading) := r.canonical];
    if ServesLegacy(r) then both[LEGACY_BASE + "-EQ" := LEGACY_CANONICAL] else both
  }

  function TradingsOf(seeds: seq<Row>, rows: seq<Row>): map<string, string> {
    if rows == [] then SeedTradings(seeds)
    else WithTrading(TradingsOf(seeds, rows[..|rows| - 1]), rows[|rows| - 1])
  }

  function SeedTradings(seeds: seq<Row>): map<string, string> {
    if seeds == [] then map[]
    else
      var r := seeds[|seeds| - 1];
      SeedTradings(seeds[..|seeds| - 1])[r.mapping.tradingSymbol := r.canonical]
  }

  function WithBase(bases: map<string, string>, r: Row): map<string, string> {
    var all := bases[Upper(r.symbol) := r.canonical];
    if ServesLegacy(r) then all[LEGACY_BASE := LEGACY_CANONICAL] else all
  }

  function BasesOf(rows: seq<Row>): map<string, string> {
    if rows == [] then map[] else WithBase(BasesOf(rows[..|rows| - 1]), rows[|rows| - 1])
  }

  /** What a row makes of a trading symbol, if it sets it: its canonical symbol, or the legacy share's. */
  function TradedAs(r: Row, trading: string): Option<string> {
    if ServesLegacy(r) && trading == LEGACY_BASE + "-EQ" then Some(LEGACY_CANONICAL)
    else if r.mapping.tradingSymbol == trading || Upper(r.mapping.tradingSymbol) == trading then Some(r.canonical)
    else None
  }

  function LatestTraded(rows: seq<Row>, trading: string): Option<string> {
    if rows == [] then None
    else
      var last := TradedAs(rows[|rows| - 1], trading);
      if last.Some? then last else LatestTraded(rows[..|rows| - 1], trading)
  }

  function LatestSeed(seeds: seq<Row>, trading: string): Option<string> {
    if seeds == [] then None
    else
      var r := seeds[|seeds| - 1];
      if r.mapping.tradingSymbol == trading then Some(r.canonical) else LatestSeed(seeds[..|seeds| - 1], trading)
  }

  /** A trading symbol, as written or in capitals, means what the last row that sets it says, or else the seeds. */
  lemma {:induction false} TradingIsLatest(seeds: seq<Row>, rows: seq<Row>, trading: string)
    ensures var latest := LatestTraded(rows, trading);
      Get(TradingsOf(seeds, rows), trading) == if latest.Some? then latest else LatestSeed(seeds, trading)
    decreases |rows|
  {
    if rows == [] {
      SeedTradingIsLatest(seeds, trading);
    } else {
      TradingIsLatest(seeds, rows[..|rows| - 1], trading);
    }
  }

  lemma {:induction false} SeedTradingIsLatest(seeds: seq<Row>, trading: string)
    ensures Get(SeedTradings(seeds), trading) == LatestSeed(seeds, trading)
    decreases |seeds|
  {
    if seeds != [] {
      SeedTradingIsLatest(seeds[..|seeds| - 1], trading);
    }
  }

  /** What a row makes of a bare symbol, if it sets it. */
  function BasedOn(r: Row, base: string): Option<string> {
    if ServesLegacy(r) && base == LEGACY_BASE then Some(LEGACY_CANONICAL)
    else if Upper(r.symbol) == base then Some(r.canonical)
    else None
  }

  function LatestBased(rows: seq<Row>, base: string): Option<string> {
    if rows == [] then None
    else
      var last := BasedOn(rows[|rows| - 1], base);
      if last.Some? then last else LatestBased(rows[..|rows| - 1], base)
  }

  /** A symbol without suffix means the canonical symbol of the last row that has it. */
  lemma {:induction false} BaseIsLatest(rows: seq<Row>, base: string)
    ensures Get(BasesOf(rows), base) == LatestBased(rows, base)
    decreases |rows|
  {
    if rows != [] {
      BaseIsLatest(rows[..|rows| - 1], base);
    }
  }

  // ---------- The index seeds ----------

  function Index(canonical: string, tradingSymbol: string, token: string, exchange: string): Row
    requires canonical != "" && token != ""
  {
    RowFields(canonical, canonical, Mapping(tradingSymbol, token, exchange))
  }

  const SEEDS: seq<Row> := [
    Index("^NSEI", "Nifty 50", "26000", "NSE"),
    Index("^NSEBANK", "Nifty Bank", "26009", "NSE"),
    Index("^CNXIT", "Nifty IT", "26008", "NSE"),
    Index("^BSESN", "SENSEX", "1", "BSE"),
    Index("^CNXFIN", "Nifty Fin Services", "26037", "NSE"),
    Index("^CNXFMCG", "Nifty FMCG", "26035", "NSE"),
    Index("^CNXMETAL", "Nifty Metal", "26034", "NSE"),
    Index("^CNXAUTO", "Nifty Auto", "26033", "NSE"),
    Index("^CNXPHARMA", "Nifty Pharma", "26036", "NSE"),
    Index("^CNXPSUBANK", "Nifty PSU Bank", "26100", "NSE")]

  lemma SeedsAreDistinct(i: nat, j: nat)
    requires i < j < |SEEDS|
    ensures SEEDS[i].mapping.token != SEEDS[j].mapping.token
  {
    var a, b := SEEDS[i].mapping.token, SEEDS[j].mapping.token;
    assert |a| != |b| || a[2] != b[2] || a[3] != b[3] || a[4] != b[4];
  }

  lemma SeedsArePlain(i: nat)
    requires i < |SEEDS|
    ensures Plain(SEEDS[i].mapping.token) && !ServesLegacy(SEEDS[i]) && SEEDS[i].mapping.exchange != ""
  {
    assert Upper(SEEDS[i].symbol)[0] == '^';
  }

  lemma {:induction false} NotLoadedYet(rows: seq<Row>, token: string)
    requires forall r :: r in rows ==> r.mapping.token != token
    ensures CanonicalsOf(rows, token) == {}
    decreases |rows|
  {
    if rows != [] {
      assert rows[|rows| - 1] in rows;
      NotLoadedYet(rows[..|rows| - 1], token);
    }
  }

  /** The seeds, written straight into the maps, leave what loading them as rows would leave. */
  lemma SeedTokensNext(i: nat)
    requires i < |SEEDS| && Indexed(SEEDS[..i]).ambiguous == {}
    ensures var r, canonicals := SEEDS[i], Indexed(SEEDS[..i]).canonicals;
      Indexed(SEEDS[..i + 1]) == TokenIndex(
        canonicals[r.mapping.token := r.canonical][Scoped(r.mapping.exchange, r.mapping.token) := r.canonical], {})
  {
    var before, r := SEEDS[..i], SEEDS[i];
    SeedIsNew(i);
    assert SEEDS[..i + 1] == before + [r];
    assert (before + [r])[..i] == before;
  }

  lemma SeedIsNew(i: nat)
    requires i < |SEEDS|
    ensures SEEDS[i].mapping.token !in Indexed(SEEDS[..i]).canonicals
  {
    var before, r := SEEDS[..i], SEEDS[i];
    SeedsArePlain(i);
    forall s | s in before ensures s.mapping.token != r.mapping.token {
      var k :| 0 <= k < i && s == SEEDS[k];
      SeedsAreDistinct(k, i);
    }
    NotLoadedYet(before, r.mapping.token);
    PlainIsHarmless(before, r.mapping.token);
    IndexTracks(before, r.mapping.token);
  }

  lemma SeedSymbolsNext(i: nat)
    requires i < |SEEDS|
    ensures SymbolsOf(SEEDS[..i + 1]) == SymbolsOf(SEEDS[..i])[SEEDS[i].canonical := SEEDS[i].mapping]
    ensures SeedTradings(SEEDS[..i + 1]) == SeedTradings(SEEDS[..i])[SEEDS[i].mapping.tradingSymbol := SEEDS[i].canonical]
  {
    SeedsArePlain(i);
    assert SEEDS[..i + 1][..i] == SEEDS[..i];
  }

  /** Whatever contract files were loaded, tokens have no surrounding blanks and exchanges are upper case. */
  lemma {:induction false} HistoryIsClean(contracts: seq<Contract>)
    ensures forall r :: r in SEEDS + Rows(contracts) ==> Clean(r.mapping)
    decreases |contracts|
  {
    if contracts == [] {
      forall r | r in SEEDS ensures Clean(r.mapping) {
        SeedIsClean(r);
      }
    } else {
      var last := |contracts| - 1;
      HistoryIsClean(contracts[..last]);
      if RowOf(contracts[last]).Some? {
        RowsAreClean(contracts[last]);
      }
    }
  }

  lemma SeedIsClean(r: Row)
    requires r in SEEDS
    ensures Clean(r.mapping)
  {
    SeedShape(r);
    assert Upper("NSE") == "NSE" && Upper("BSE") == "BSE";
  }

  lemma SeedShape(r: Row)
    requires r in SEEDS
    ensures r.mapping.exchange == "NSE" || r.mapping.exchange == "BSE"
    ensures !IsSpace(r.mapping.token[0]) && !IsSpace(r.mapping.token[|r.mapping.token| - 1])
  {
  }
}
