/**
 * The fold of `_parse_candles` in backend/providers/zebu_provider.py: rows are decoded one by one,
 * sorted by time, and run through the volume conversion a second time.
 */
module CandleParsing {
  import opened Prelude
  import opened Candles
  import opened VolumeDecoding

  /**
   * A row after field conversion. A missing time stands for a row that is not a record or whose
   * timestamp cannot be read; a missing price for a field that is not a number.
   */
  datatype Row = Row(time: Option<int>, open: Option<real>, high: Option<real>, low: Option<real>,
                     close: Option<real>, volume: RawVolume)
  {
    predicate HasPrices() {
      open.Some? && high.Some? && low.Some? && close.Some?
    }
  }

  /** Candles of the rows in feed order, and the cumulative reading left over. */
  function Kept(rows: seq<Row>): (r: (seq<Candle>, Option<int>)) {
    if rows == [] then ([], None)
    else
      var (candles, previous) := Kept(rows[..|rows| - 1]);
      var row := rows[|rows| - 1];
      if row.time.None? then (candles, previous)
      else
        var (bar, next) := ResolveBarVolume(row.volume, previous);
        if !row.HasPrices() then (candles, next)
        else
          (candles + [Candle(row.time.value, row.open.value, row.high.value, row.low.value, row.close.value, bar)], next)
  }

  // ---------- Sorting by time ----------

  /** Places a candle after every candle that is not later: the stable position. */
  function Insert(cs: seq<Candle>, c: Candle): seq<Candle> {
    if cs == [] || cs[|cs| - 1].time <= c.time then cs + [c]
    else Insert(cs[..|cs| - 1], c) + [cs[|cs| - 1]]
  }

  function SortByTime(cs: seq<Candle>): seq<Candle> {
    if cs == [] then [] else Insert(SortByTime(cs[..|cs| - 1]), cs[|cs| - 1])
  }

  lemma {:induction false} InsertKeepsCandles(cs: seq<Candle>, c: Candle)
    ensures multiset(Insert(cs, c)) == multiset(cs) + multiset{c}
  {
    if cs != [] && cs[|cs| - 1].time > c.time {
      InsertKeepsCandles(cs[..|cs| - 1], c);
      assert cs == cs[..|cs| - 1] + [cs[|cs| - 1]];
    }
  }

  lemma {:induction false} InsertKeepsVolume(cs: seq<Candle>, c: Candle)
    ensures TotalVolume(Insert(cs, c)) == TotalVolume(cs) + c.volume
  {
    if cs == [] || cs[|cs| - 1].time <= c.time {
      assert (cs + [c])[..|cs|] == cs;
    } else {
      var front, last := cs[..|cs| - 1], cs[|cs| - 1];
      InsertKeepsVolume(front, c);
      assert (Insert(front, c) + [last])[..|Insert(front, c)|] == Insert(front, c);
    }
  }

  lemma {:induction false} InsertSorted(cs: seq<Candle>, c: Candle)
    requires SortedByTime(cs)
    ensures SortedByTime(Insert(cs, c))
    ensures forall d :: d in Insert(cs, c) ==> d == c || d in cs
  {
    if cs != [] && cs[|cs| - 1].time > c.time {
      var front := cs[..|cs| - 1];
      InsertSorted(front, c);
      forall i | 0 <= i < |Insert(front, c)| ensures Insert(front, c)[i].time <= cs[|cs| - 1].time {
        assert Insert(front, c)[i] in Insert(front, c);
      }
    }
  }

  /** Sorting by time rearranges the candles. */
  lemma {:induction false} SortByTimePermutes(cs: seq<Candle>)
    ensures multiset(SortByTime(cs)) == multiset(cs)
  {
    if cs != [] {
      SortByTimePermutes(cs[..|cs| - 1]);
      InsertKeepsCandles(SortByTime(cs[..|cs| - 1]), cs[|cs| - 1]);
      assert cs == cs[..|cs| - 1] + [cs[|cs| - 1]];
    }
  }

  lemma {:induction false} SortByTimeKeepsVolume(cs: seq<Candle>)
    ensures TotalVolume(SortByTime(cs)) == TotalVolume(cs)
  {
    if cs != [] {
      SortByTimeKeepsVolume(cs[..|cs| - 1]);
      InsertKeepsVolume(SortByTime(cs[..|cs| - 1]), cs[|cs| - 1]);
    }
  }

  lemma {:induction false} SortByTimeSorts(cs: seq<Candle>)
    ensures SortedByTime(SortByTime(cs))
  {
    if cs != [] {
      SortByTimeSorts(cs[..|cs| - 1]);
      InsertSorted(SortByTime(cs[..|cs| - 1]), cs[|cs| - 1]);
    }
  }

  lemma {:induction false} SortedUnchanged(cs: seq<Candle>)
    requires SortedByTime(cs)
    ensures SortByTime(cs) == cs
  {
    if cs != [] {
      SortedUnchanged(cs[..|cs| - 1]);
    }
  }

  // ---------- Parsing ----------

  function Parsed(rows: seq<Row>): seq<Candle> {
    var sorted := SortByTime(Kept(rows).0);
    WithVolumes(sorted, ConvertedVolumes(Volumes(sorted)))
  }

  method ParseCandles(rawCandles: seq<Row>) returns (result: seq<Candle>)
    ensures result == Parsed(rawCandles)
  {
    var candles: seq<Candle> := [];
    var prevCumulative: Option<int> := None;
    for i := 0 to |rawCandles|
      invariant (candles, prevCumulative) == Kept(rawCandles[..i])
    {
      assert rawCandles[..i + 1][..i] == rawCandles[..i];
      var row := rawCandles[i];
      if row.time.None? {
        continue;
      }
      var (bar, next) := ResolveBarVolume(row.volume, prevCumulative);
      prevCumulative := next;
      if row.open.None? || row.high.None? || row.low.None? || row.close.None? {
        continue;
      }
      candles := candles + [Candle(row.time.value, row.open.value, row.high.value, row.low.value, row.close.value, bar)];
    }
    assert rawCandles[..|rawCandles|] == rawCandles;
    candles := SortByTime(candles);
    result := ConvertMonotonicVolumesToDeltas(candles);
  }

  function RawVolumes(rows: seq<Row>): (vs: seq<RawVolume>)
    ensures |vs| == |rows|
  {
    seq(|rows|, i requires 0 <= i < |rows| => rows[i].volume)
  }

  ghost predicate Complete(rows: seq<Row>) {
    forall i :: 0 <= i < |rows| ==> rows[i].time.Some? && rows[i].HasPrices()
  }

  /** Threading the remembered reading one row further. */
  function Threaded(rows: seq<RawVolume>, previous: Option<int>): Option<int> {
    if rows == [] then previous else Threaded(rows[1..], ResolveBarVolume(rows[0], previous).1)
  }

  lemma {:induction false} DecodedStep(rows: seq<RawVolume>, row: RawVolume, previous: Option<int>)
    ensures DecodedVolumes(rows + [row], previous)
      == DecodedVolumes(rows, previous) + [ResolveBarVolume(row, Threaded(rows, previous)).0]
    ensures Threaded(rows + [row], previous) == ResolveBarVolume(row, Threaded(rows, previous)).1
  {
    if rows == [] {
      assert rows + [row] == [row];
      assert [row][1..] == [];
    } else {
      DecodedStep(rows[1..], row, ResolveBarVolume(rows[0], previous).1);
      assert (rows + [row])[1..] == rows[1..] + [row];
    }
  }

  /** When every row is complete, the fold keeps a candle for each with its decoded volume. */
  lemma {:induction false} KeptIsDecoded(rows: seq<Row>)
    requires Complete(rows)
    ensures Volumes(Kept(rows).0) == DecodedVolumes(RawVolumes(rows), None)
    ensures Kept(rows).1 == Threaded(RawVolumes(rows), None)
  {
    if rows != [] {
      var front, row := rows[..|rows| - 1], rows[|rows| - 1];
      KeptIsDecoded(front);
      DecodedStep(RawVolumes(front), row.volume, None);
      assert RawVolumes(rows) == RawVolumes(front) + [row.volume];
      var bar := ResolveBarVolume(row.volume, Kept(front).1).0;
      assert Volumes(Kept(rows).0) == Volumes(Kept(front).0) + [bar];
    }
  }

  lemma {:induction false} TotalIsSum(cs: seq<Candle>)
    ensures TotalVolume(cs) == SumInt(Volumes(cs))
  {
    if cs != [] {
      TotalIsSum(cs[..|cs| - 1]);
      assert Volumes(cs)[..|cs| - 1] == Volumes(cs[..|cs| - 1]);
    }
  }

  lemma {:induction false} KeptNonNegative(rows: seq<Row>)
    ensures Kept(rows).1.Some? ==> Kept(rows).1.value > 0
    ensures forall i :: 0 <= i < |Kept(rows).0| ==> Kept(rows).0[i].volume >= 0
  {
    if rows != [] {
      KeptNonNegative(rows[..|rows| - 1]);
    }
  }

  lemma SortedVolumesNonNegative(rows: seq<Row>)
    ensures forall i :: 0 <= i < |SortByTime(Kept(rows).0)| ==> SortByTime(Kept(rows).0)[i].volume >= 0
  {
    var kept := Kept(rows).0;
    KeptNonNegative(rows);
    SortByTimePermutes(kept);
    forall i | 0 <= i < |SortByTime(kept)| ensures SortByTime(kept)[i].volume >= 0 {
      assert SortByTime(kept)[i] in multiset(SortByTime(kept));
      assert SortByTime(kept)[i] in kept;
    }
  }

  /**
   * The second pass looks at volumes that are per bar already. The parsed candles carry the decoded
   * total exactly when those volumes do not look cumulative; otherwise some of it is lost.
   */
  lemma ParsingConservesExactly(rows: seq<Row>)
    ensures TotalVolume(Parsed(rows)) == TotalVolume(Kept(rows).0)
      <==> !LooksCumulative(Volumes(SortByTime(Kept(rows).0)))
    ensures TotalVolume(Parsed(rows)) <= TotalVolume(Kept(rows).0)
  {
    var sorted := SortByTime(Kept(rows).0);
    SortedVolumesNonNegative(rows);
    SortByTimeKeepsVolume(Kept(rows).0);
    ConversionConservesExactly(Volumes(sorted));
    TotalIsSum(sorted);
    TotalIsSum(Parsed(rows));
    assert Volumes(Parsed(rows)) == ConvertedVolumes(Volumes(sorted));
  }

  /** For complete rows: the parsed total is the session total of the feed, or the guard fired. */
  lemma ParsedSessionTotal(rows: seq<Row>)
    requires Complete(rows)
    ensures TotalVolume(Parsed(rows)) == OwnVolumes(RawVolumes(rows)) + SessionTotal(Readings(RawVolumes(rows)))
      <==> !LooksCumulative(Volumes(SortByTime(Kept(rows).0)))
  {
    ParsingConservesExactly(rows);
    KeptIsDecoded(rows);
    DecodingTelescopes(RawVolumes(rows));
    TotalIsSum(Kept(rows).0);
  }

  // ---------- Feeds that lose volume ----------

  ghost predicate TimesAscend(rows: seq<Row>) {
    forall i, j :: 0 <= i < j < |rows| && rows[i].time.Some? && rows[j].time.Some? ==>
      rows[i].time.value <= rows[j].time.value
  }

  lemma {:induction false} KeptTimes(rows: seq<Row>)
    requires Complete(rows)
    ensures |Kept(rows).0| == |rows|
    ensures forall i :: 0 <= i < |rows| ==> rows[i].time == Some(Kept(rows).0[i].time)
  {
    if rows != [] {
      KeptTimes(rows[..|rows| - 1]);
    }
  }

  lemma {:induction false} RunningTotalsDecode(rows: seq<RawVolume>, bars: seq<int>, start: int)
    requires |rows| == |bars| && start >= 0
    requires forall i :: 0 <= i < |rows| ==> IsReading(rows[i]) && rows[i].cumulative.value == RunningTotals(bars, start)[i]
    requires forall i :: 0 <= i < |bars| ==> bars[i] > 0
    ensures DecodedVolumes(rows, if start == 0 then None else Some(start)) == bars
  {
    if rows != [] {
      assert rows[0].cumulative.value == RunningTotals(bars, start)[0];
      forall i | 0 <= i < |rows[1..]|
        ensures rows[1..][i].cumulative.value == RunningTotals(bars[1..], start + bars[0])[i]
      {
        assert rows[i + 1].cumulative.value == RunningTotals(bars, start)[i + 1];
      }
      RunningTotalsDecode(rows[1..], bars[1..], start + bars[0]);
    }
  }

  /** Complete rows in time order are kept in the order they came. */
  lemma AscendingKept(rows: seq<Row>)
    requires Complete(rows) && TimesAscend(rows)
    ensures SortByTime(Kept(rows).0) == Kept(rows).0
  {
    KeptTimes(rows);
    SortedUnchanged(Kept(rows).0);
  }

  /**
   * A feed that reports running totals of positive bars, in time order: row-by-row decoding recovers
   * the bars, and parsing as a whole returns them exactly when they do not look cumulative.
   */
  lemma RunningTotalFeed(rows: seq<Row>, bars: seq<int>)
    requires Complete(rows) && TimesAscend(rows) && |rows| == |bars|
    requires forall i :: 0 <= i < |bars| ==> bars[i] > 0
    requires forall i :: 0 <= i < |rows| ==>
      IsReading(rows[i].volume) && rows[i].volume.cumulative.value == RunningTotals(bars, 0)[i]
    ensures Volumes(Kept(rows).0) == bars
    ensures Volumes(Parsed(rows)) == ConvertedVolumes(bars)
    ensures Volumes(Parsed(rows)) == bars <==> !LooksCumulative(bars)
  {
    KeptIsDecoded(rows);
    RunningTotalsDecode(RawVolumes(rows), bars, 0);
    AscendingKept(rows);
    assert Volumes(Parsed(rows)) == ConvertedVolumes(bars);
    ConversionConservesExactly(bars);
  }

  lemma TotalsOfFour(a: int, b: int, c: int, d: int)
    ensures RunningTotals([a, b, c, d], 0) == [a, a + b, a + b + c, a + b + c + d]
  {
    assert [a, b, c, d][1..] == [b, c, d] && [b, c, d][1..] == [c, d] && [c, d][1..] == [d] && [d][1..] == [];
    assert RunningTotals([d], a + b + c) == [a + b + c + d];
    assert RunningTotals([c, d], a + b) == [a + b + c, a + b + c + d];
    assert RunningTotals([b, c, d], a) == [a + b, a + b + c, a + b + c + d];
  }

  /** Bars of 10, 20, 30 and 40 look cumulative: they come out as four bars of 10. */
  lemma RisingBarsAreLost()
    ensures LooksCumulative([10, 20, 30, 40])
    ensures ConvertedVolumes([10, 20, 30, 40]) == [10, 10, 10, 10]
  {
    TotalsOfFour(10, 10, 10, 10);
    ConversionInvertsRunningTotals([10, 10, 10, 10]);
  }

  /** A complete row with a cumulative reading and nothing else about volume. */
  function ReadingRow(time: int, reading: int): Row {
    Row(Some(time), Some(1.0), Some(1.0), Some(1.0), Some(1.0), RawVolume(None, Some(reading), [], None))
  }

  /** As rows of a feed: readings 10, 30, 60 and 100 are parsed to four bars of 10 instead of 10, 20, 30 and 40. */
  lemma RisingFeedIsLost() returns (rows: seq<Row>)
    ensures rows == [ReadingRow(60, 10), ReadingRow(120, 30), ReadingRow(180, 60), ReadingRow(240, 100)]
    ensures Volumes(Kept(rows).0) == [10, 20, 30, 40]
    ensures Volumes(Parsed(rows)) == [10, 10, 10, 10]
  {
    rows := [ReadingRow(60, 10), ReadingRow(120, 30), ReadingRow(180, 60), ReadingRow(240, 100)];
    TotalsOfFour(10, 20, 30, 40);
    RunningTotalFeed(rows, [10, 20, 30, 40]);
    RisingBarsAreLost();
  }
}
