/**
 * The prices of the candles that `_parse_candles` in backend/providers/zebu_provider.py returns, and
 * the volumes of feeds with incomplete rows.
 */
module CandlePrices {
  import opened Prelude
  import opened Candles
  import opened VolumeDecoding
  import opened CandleParsing

  datatype Ohlc = Ohlc(time: int, open: real, high: real, low: real, close: real)

  function PricesOf(c: Candle): Ohlc {
    Ohlc(c.time, c.open, c.high, c.low, c.close)
  }

  function AllPrices(cs: seq<Candle>): (ps: seq<Ohlc>)
    ensures |ps| == |cs|
  {
    seq(|cs|, i requires 0 <= i < |cs| => PricesOf(cs[i]))
  }

  predicate Usable(row: Row) {
    row.time.Some? && row.HasPrices()
  }

  /** Time and prices of the rows that have them all, in feed order. */
  function Quoted(rows: seq<Row>): seq<Ohlc> {
    if rows == [] then []
    else
      var before, row := Quoted(rows[..|rows| - 1]), rows[|rows| - 1];
      if Usable(row) then before + [Ohlc(row.time.value, row.open.value, row.high.value, row.low.value, row.close.value)]
      else before
  }

  /** The quotations of one time, in order. */
  function AtTime(ps: seq<Ohlc>, t: int): seq<Ohlc> {
    if ps == [] then []
    else
      var before, last := AtTime(ps[..|ps| - 1], t), ps[|ps| - 1];
      if last.time == t then before + [last] else before
  }

  lemma PricesAppend(cs: seq<Candle>, c: Candle, t: int)
    ensures AllPrices(cs + [c]) == AllPrices(cs) + [PricesOf(c)]
    ensures AtTime(AllPrices(cs + [c]), t) == AtTime(AllPrices(cs), t) + if c.time == t then [PricesOf(c)] else []
  {
    var ps := AllPrices(cs) + [PricesOf(c)];
    assert AllPrices(cs + [c]) == ps;
    assert ps[..|ps| - 1] == AllPrices(cs);
  }

  lemma {:induction false} KeptPrices(rows: seq<Row>)
    ensures AllPrices(Kept(rows).0) == Quoted(rows)
  {
    if rows != [] {
      KeptPrices(rows[..|rows| - 1]);
    }
  }

  lemma PricesGrow(cs: seq<Candle>, c: Candle)
    ensures multiset(AllPrices(cs + [c])) == multiset(AllPrices(cs)) + multiset{PricesOf(c)}
  {
    assert AllPrices(cs + [c]) == AllPrices(cs) + [PricesOf(c)];
  }

  lemma {:induction false} InsertKeepsPrices(cs: seq<Candle>, c: Candle)
    ensures multiset(AllPrices(Insert(cs, c))) == multiset(AllPrices(cs)) + multiset{PricesOf(c)}
  {
    if cs == [] || cs[|cs| - 1].time <= c.time {
      PricesGrow(cs, c);
    } else {
      var front, last := cs[..|cs| - 1], cs[|cs| - 1];
      assert cs == front + [last];
      InsertKeepsPrices(front, c);
      PricesGrow(front, last);
      PricesGrow(Insert(front, c), last);
    }
  }

  /** Inserting by time puts a candle behind those of its own time. */
  lemma {:induction false} InsertsBehind(cs: seq<Candle>, c: Candle, t: int)
    ensures AtTime(AllPrices(Insert(cs, c)), t) == AtTime(AllPrices(cs), t) + if c.time == t then [PricesOf(c)] else []
  {
    if cs == [] || cs[|cs| - 1].time <= c.time {
      PricesAppend(cs, c, t);
    } else {
      var front, last := cs[..|cs| - 1], cs[|cs| - 1];
      assert cs == front + [last];
      InsertsBehind(front, c, t);
      PricesAppend(front, last, t);
      PricesAppend(Insert(front, c), last, t);
    }
  }

  lemma {:induction false} SortKeepsPrices(cs: seq<Candle>, t: int)
    ensures multiset(AllPrices(SortByTime(cs))) == multiset(AllPrices(cs))
    ensures AtTime(AllPrices(SortByTime(cs)), t) == AtTime(AllPrices(cs), t)
  {
    if cs != [] {
      var front, last := cs[..|cs| - 1], cs[|cs| - 1];
      assert cs == front + [last];
      SortKeepsPrices(front, t);
      InsertKeepsPrices(SortByTime(front), last);
      PricesGrow(front, last);
      InsertsBehind(SortByTime(front), last, t);
      PricesAppend(front, last, t);
    }
  }

  lemma ParsedPrices(rows: seq<Row>)
    ensures AllPrices(Parsed(rows)) == AllPrices(SortByTime(Kept(rows).0))
  {
  }

  /**
   * Parsing returns, in time order, the time and prices of exactly the rows that have them all, each
   * as often as the feed has it; rows of one time stay in feed order. Together that determines the
   * prices of every candle.
   */
  lemma ParsingKeepsPrices(rows: seq<Row>, t: int)
    ensures multiset(AllPrices(Parsed(rows))) == multiset(Quoted(rows))
    ensures SortedByTime(Parsed(rows))
    ensures AtTime(AllPrices(Parsed(rows)), t) == AtTime(Quoted(rows), t)
  {
    ParsedPrices(rows);
    KeptPrices(rows);
    SortKeepsPrices(Kept(rows).0, t);
    SortByTimeSorts(Kept(rows).0);
    assert forall i :: 0 <= i < |Parsed(rows)| ==> Parsed(rows)[i].time == SortByTime(Kept(rows).0)[i].time;
  }

  lemma {:induction false} QuotedRows(rows: seq<Row>)
    requires Complete(rows)
    ensures |Quoted(rows)| == |rows|
    ensures forall i :: 0 <= i < |rows| ==>
      Quoted(rows)[i] == Ohlc(rows[i].time.value, rows[i].open.value, rows[i].high.value, rows[i].low.value, rows[i].close.value)
  {
    if rows != [] {
      QuotedRows(rows[..|rows| - 1]);
    }
  }

  /** Complete rows in time order become candles one by one, each price from its own field. */
  lemma RowByRow(rows: seq<Row>)
    requires Complete(rows) && TimesAscend(rows)
    ensures |Parsed(rows)| == |rows|
    ensures forall i :: 0 <= i < |rows| ==>
      var c := Parsed(rows)[i];
      && rows[i].time == Some(c.time) && rows[i].open == Some(c.open) && rows[i].high == Some(c.high)
      && rows[i].low == Some(c.low) && rows[i].close == Some(c.close)
  {
    ParsedPrices(rows);
    AscendingKept(rows);
    KeptPrices(rows);
    QuotedRows(rows);
    forall i | 0 <= i < |rows| ensures PricesOf(Parsed(rows)[i]) == Quoted(rows)[i] {
      assert AllPrices(Parsed(rows))[i] == PricesOf(Parsed(rows)[i]);
    }
  }

  // ---------- Incomplete rows ----------

  /** The rows that have a time; the others are skipped unread. */
  function TimedRows(rows: seq<Row>): seq<Row> {
    if rows == [] then []
    else
      var before, row := TimedRows(rows[..|rows| - 1]), rows[|rows| - 1];
      if row.time.Some? then before + [row] else before
  }

  /** The volumes that belong to rows with prices. */
  function OfPriced(rows: seq<Row>, bars: seq<int>): seq<int>
    requires |bars| == |rows|
  {
    if rows == [] then []
    else
      var n := |rows| - 1;
      var before := OfPriced(rows[..n], bars[..n]);
      if rows[n].HasPrices() then before + [bars[n]] else before
  }

  /**
   * A row without a price yields no candle, but its cumulative reading is remembered: the candles have
   * the volumes that decoding all timed rows gives the rows with prices.
   */
  lemma {:induction false} KeptDecodesTimedRows(rows: seq<Row>)
    ensures var timed := TimedRows(rows);
      && Volumes(Kept(rows).0) == OfPriced(timed, DecodedVolumes(RawVolumes(timed), None))
      && Kept(rows).1 == Threaded(RawVolumes(timed), None)
  {
    if rows != [] {
      var front, row := rows[..|rows| - 1], rows[|rows| - 1];
      KeptDecodesTimedRows(front);
      if row.time.Some? {
        var timed := TimedRows(front);
        DecodedStep(RawVolumes(timed), row.volume, None);
        assert RawVolumes(timed + [row]) == RawVolumes(timed) + [row.volume];
        PricedStep(timed, row, DecodedVolumes(RawVolumes(timed), None), ResolveBarVolume(row.volume, Kept(front).1).0);
        if row.HasPrices() {
          assert Volumes(Kept(rows).0)
              == Volumes(Kept(front).0) + [ResolveBarVolume(row.volume, Kept(front).1).0];
        }
      }
    }
  }

  lemma PricedStep(rows: seq<Row>, row: Row, bars: seq<int>, bar: int)
    requires |bars| == |rows|
    ensures OfPriced(rows + [row], bars + [bar]) == OfPriced(rows, bars) + if row.HasPrices() then [bar] else []
  {
    assert (rows + [row])[..|rows|] == rows && (bars + [bar])[..|rows|] == bars;
  }
}
