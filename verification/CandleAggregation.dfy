/**
 * The streaming candle aggregator of backend/providers/zebu_provider.py: a run of candles that fall
 * into one bucket becomes one larger candle.
 */
module CandleAggregation {
  import opened Prelude
  import opened Candles

  /** First candle of a bucket. */
  function Start(c: Candle, bucket: Bucketing): Candle {
    c.(time := bucket(c.time))
  }

  /** A further candle of the current bucket. */
  function Merge(current: Candle, c: Candle): Candle {
    Candle(current.time, current.open,
           Max(Max(Max(Max(current.high, c.high), c.open), c.close), c.low),
           Min(Min(Min(Min(current.low, c.low), c.open), c.close), c.high),
           c.close, current.volume + c.volume)
  }

  /** Output after one more candle: it joins the last bar or opens a new one. */
  function Absorb(out: seq<Candle>, c: Candle, bucket: Bucketing): seq<Candle> {
    if out != [] && out[|out| - 1].time == bucket(c.time) then
      out[..|out| - 1] + [Merge(out[|out| - 1], c)]
    else
      out + [Start(c, bucket)]
  }

  function Aggregated(cs: seq<Candle>, bucket: Bucketing): seq<Candle> {
    if cs == [] then [] else Absorb(Aggregated(cs[..|cs| - 1], bucket), cs[|cs| - 1], bucket)
  }

  lemma AggregatedStep(cs: seq<Candle>, c: Candle, bucket: Bucketing)
    ensures Aggregated(cs + [c], bucket) == Absorb(Aggregated(cs, bucket), c, bucket)
  {
    assert (cs + [c])[..|cs|] == cs;
  }

  /** Rows whose fields convert to numbers; `None` stands for a row that does not. */
  function Parsed(rows: seq<Option<Candle>>): seq<Candle> {
    if rows == [] then []
    else
      var rest := Parsed(rows[..|rows| - 1]);
      var last := rows[|rows| - 1];
      if last.Some? then rest + [last.value] else rest
  }

  lemma {:induction false} ParsedExactly(rows: seq<Option<Candle>>, c: Candle)
    ensures c in Parsed(rows) <==> Some(c) in rows
  {
    if rows != [] {
      ParsedExactly(rows[..|rows| - 1], c);
      assert rows == rows[..|rows| - 1] + [rows[|rows| - 1]];
    }
  }

  function Rows(cs: seq<Candle>): (rows: seq<Option<Candle>>)
    ensures |rows| == |cs| && forall i :: 0 <= i < |cs| ==> rows[i] == Some(cs[i])
  {
    seq(|cs|, i requires 0 <= i < |cs| => Some(cs[i]))
  }

  lemma {:induction false} ParsedRows(cs: seq<Candle>)
    ensures Parsed(Rows(cs)) == cs
  {
    if cs != [] {
      ParsedRows(cs[..|cs| - 1]);
      assert Rows(cs)[..|cs| - 1] == Rows(cs[..|cs| - 1]);
    }
  }

  /** What the aggregator returns: its input for a width of at most a minute, else the larger candles. */
  function AggregatedRows(rows: seq<Option<Candle>>, minutes: int): seq<Option<Candle>> {
    if minutes <= 1 then rows else Rows(Aggregated(Parsed(rows), Buckets(minutes * 60)))
  }

  /** Finished bars followed by the one still being built. */
  function Pending(aggregated: seq<Candle>, current: Option<Candle>): seq<Candle> {
    if current.Some? then aggregated + [current.value] else aggregated
  }

  lemma PendingAbsorbs(aggregated: seq<Candle>, current: Candle, c: Candle, bucket: Bucketing)
    ensures Absorb(aggregated + [current], c, bucket) ==
      if current.time == bucket(c.time) then aggregated + [Merge(current, c)]
      else aggregated + [current] + [Start(c, bucket)]
  {
  }

  /** The loop, for any assignment of times to buckets. */
  method AggregateBy(candles: seq<Option<Candle>>, bucketing: Bucketing) returns (aggregated: seq<Candle>)
    ensures aggregated == Aggregated(Parsed(candles), bucketing)
  {
    aggregated := [];
    var current: Option<Candle> := None;
    var currentBucket: Option<int> := None;
    for i := 0 to |candles|
      invariant currentBucket == if current.Some? then Some(current.value.time) else None
      invariant current.None? ==> aggregated == []
      invariant Pending(aggregated, current) == Aggregated(Parsed(candles[..i]), bucketing)
    {
      assert candles[..i + 1][..i] == candles[..i];
      if candles[i].None? {
        continue;
      }
      var c := candles[i].value;
      AggregatedStep(Parsed(candles[..i]), c, bucketing);
      var bucket := bucketing(c.time);
      if current.Some? {
        PendingAbsorbs(aggregated, current.value, c, bucketing);
      }
      if currentBucket.None? || bucket != currentBucket.value {
        if current.Some? {
          aggregated := aggregated + [current.value];
        }
        currentBucket := Some(bucket);
        current := Some(Candle(bucket, c.open, c.high, c.low, c.close, c.volume));
        continue;
      }
      current := Some(Merge(current.value, c));
    }
    assert candles[..|candles|] == candles;
    if current.Some? {
      aggregated := aggregated + [current.value];
    }
  }

  method AggregateIntraday(candles: seq<Option<Candle>>, minutes: int) returns (result: seq<Option<Candle>>)
    ensures result == AggregatedRows(candles, minutes)
  {
    if candles == [] || minutes <= 1 {
      return candles;
    }
    var aggregated := AggregateBy(candles, Buckets(minutes * 60));
    result := Rows(aggregated);
  }

  /** Aggregation loses and invents no volume, whatever the order of the candles. */
  lemma {:induction false} AggregationConservesVolume(cs: seq<Candle>, bucket: Bucketing)
    ensures TotalVolume(Aggregated(cs, bucket)) == TotalVolume(cs)
  {
    if cs != [] {
      AggregationConservesVolume(cs[..|cs| - 1], bucket);
      AbsorbAddsVolume(Aggregated(cs[..|cs| - 1], bucket), cs[|cs| - 1], bucket);
    }
  }

  lemma AbsorbAddsVolume(out: seq<Candle>, c: Candle, bucket: Bucketing)
    ensures TotalVolume(Absorb(out, c, bucket)) == TotalVolume(out) + c.volume
  {
    var after := Absorb(out, c, bucket);
    if out != [] && out[|out| - 1].time == bucket(c.time) {
      assert after[..|after| - 1] == out[..|out| - 1];
    } else {
      assert after[..|after| - 1] == out;
    }
  }

  // ---------- Aggregations compose ----------

  lemma {:induction false} AggregationWellFormed(cs: seq<Candle>, bucket: Bucketing)
    requires AllWellFormed(cs)
    ensures AllWellFormed(Aggregated(cs, bucket))
  {
    if cs != [] {
      AggregationWellFormed(cs[..|cs| - 1], bucket);
    }
  }

  /** Merging is associative on candles that contain their own open and close. */
  lemma MergeAssociative(a: Candle, x: Candle, c: Candle)
    requires x.WellFormed() && c.WellFormed()
    ensures Merge(a, Merge(x, c)) == Merge(Merge(a, x), c)
  {
  }

  lemma AbsorbMerged(out: seq<Candle>, x: Candle, c: Candle, fine: Bucketing, coarse: Bucketing)
    requires Refines(fine, coarse)
    requires x.WellFormed() && c.WellFormed() && x.time == fine(c.time)
    ensures Absorb(out, Merge(x, c), coarse) == Absorb(Absorb(out, x, coarse), c, coarse)
  {
    assert coarse(x.time) == coarse(c.time);
    if out != [] && out[|out| - 1].time == coarse(x.time) {
      MergeAssociative(out[|out| - 1], x, c);
    }
  }

  /** Aggregating twice is aggregating once: the second pass sees whole fine buckets only. */
  lemma {:induction false} AggregationsCompose(cs: seq<Candle>, fine: Bucketing, coarse: Bucketing)
    requires Refines(fine, coarse) && AllWellFormed(cs)
    ensures Aggregated(Aggregated(cs, fine), coarse) == Aggregated(cs, coarse)
  {
    if cs != [] {
      var front, c := cs[..|cs| - 1], cs[|cs| - 1];
      AggregationsCompose(front, fine, coarse);
      AggregationWellFormed(front, fine);
      AbsorbCommutes(Aggregated(front, fine), c, fine, coarse);
    }
  }

  lemma AbsorbCommutes(s: seq<Candle>, c: Candle, fine: Bucketing, coarse: Bucketing)
    requires Refines(fine, coarse) && AllWellFormed(s) && c.WellFormed()
    ensures Aggregated(Absorb(s, c, fine), coarse) == Absorb(Aggregated(s, coarse), c, coarse)
  {
    if s != [] && s[|s| - 1].time == fine(c.time) {
      assert s == s[..|s| - 1] + [s[|s| - 1]];
      JoinCommutes(s[..|s| - 1], s[|s| - 1], c, fine, coarse);
    } else {
      AggregatedStep(s, Start(c, fine), coarse);
      SameCoarseBucket(Aggregated(s, coarse), c, fine, coarse);
    }
  }

  lemma JoinCommutes(rest: seq<Candle>, x: Candle, c: Candle, fine: Bucketing, coarse: Bucketing)
    requires Refines(fine, coarse)
    requires x.WellFormed() && c.WellFormed() && x.time == fine(c.time)
    ensures Aggregated(rest + [Merge(x, c)], coarse) == Absorb(Aggregated(rest + [x], coarse), c, coarse)
  {
    AggregatedStep(rest, Merge(x, c), coarse);
    AggregatedStep(rest, x, coarse);
    AbsorbMerged(Aggregated(rest, coarse), x, c, fine, coarse);
  }

  lemma SameCoarseBucket(out: seq<Candle>, c: Candle, fine: Bucketing, coarse: Bucketing)
    requires Refines(fine, coarse)
    ensures Absorb(out, Start(c, fine), coarse) == Absorb(out, c, coarse)
  {
    assert coarse(fine(c.time)) == coarse(c.time);
  }

  /**
   * Building a-minute candles and then (a*b)-minute candles from them gives the same as building
   * (a*b)-minute candles directly. The candles need not be sorted; b = 1 says aggregation is idempotent.
   */
  lemma ResolutionsCompose(rows: seq<Option<Candle>>, a: int, b: int)
    requires b >= 1 && AllWellFormed(Parsed(rows))
    ensures AggregatedRows(AggregatedRows(rows, a), a * b) == AggregatedRows(rows, a * b)
  {
    if a > 1 {
      MultipleGap(b, a);
      assert a * 60 * b == a * b * 60;
      WidthsCompose(Parsed(rows), a * 60, b, a * b * 60);
      ParsedRows(Aggregated(Parsed(rows), Buckets(a * 60)));
    } else {
      NonPositiveProduct(a, b);
    }
  }

  lemma WidthsCompose(cs: seq<Candle>, narrow: int, factor: int, wide: int)
    requires narrow > 0 && factor > 0 && wide == narrow * factor && AllWellFormed(cs)
    ensures wide > 0
    ensures Aggregated(Aggregated(cs, Buckets(narrow)), Buckets(wide)) == Aggregated(cs, Buckets(wide))
  {
    BucketsRefine(narrow, factor);
    AggregationsCompose(cs, Buckets(narrow), Buckets(wide));
  }

  lemma NonPositiveProduct(a: int, b: int)
    requires b >= 1 && a <= 1
    ensures a * b <= 1 || a == 1
  {
  }

  // ---------- What the aggregated candles are ----------

  lemma SummaryExtends(group: seq<Candle>, c: Candle, time: int)
    requires group != []
    ensures Summary(group + [c], time) == Candle(time, group[0].open, Max(MaxOf(Highs(group)), c.high),
      Min(MinOf(Lows(group)), c.low), c.close, TotalVolume(group) + c.volume)
    ensures c.WellFormed() ==> Summary(group + [c], time) == Merge(Summary(group, time), c)
  {
    var more := group + [c];
    ExtremesExtend(group, c);
    assert more[..|group|] == group;
  }

  lemma ExtremesExtend(group: seq<Candle>, c: Candle)
    requires group != []
    ensures MaxOf(Highs(group + [c])) == Max(MaxOf(Highs(group)), c.high)
    ensures MinOf(Lows(group + [c])) == Min(MinOf(Lows(group)), c.low)
  {
    var more := group + [c];
    assert Highs(more)[..|group|] == Highs(group) && Lows(more)[..|group|] == Lows(group);
  }

  lemma SummaryOfOne(c: Candle, time: int)
    ensures Summary([c], time) == c.(time := time)
  {
    var group := [c];
    assert group[..0] == [];
    assert TotalVolume(group) == c.volume;
    assert Highs(group) == [c.high] && Lows(group) == [c.low];
  }

  lemma {:induction false} NoneInBucket(cs: seq<Candle>, bucket: Bucketing, start: int)
    requires forall i :: 0 <= i < |cs| ==> bucket(cs[i].time) != start
    ensures InBucket(cs, bucket, start) == []
  {
    if cs != [] {
      NoneInBucket(cs[..|cs| - 1], bucket, start);
    }
  }

  lemma InBucketStep(front: seq<Candle>, c: Candle, bucket: Bucketing, start: int)
    ensures InBucket(front + [c], bucket, start) ==
      InBucket(front, bucket, start) + if bucket(c.time) == start then [c] else []
  {
    assert (front + [c])[..|front|] == front;
  }

  /** On time-sorted well-formed candles the stream of bars summarises the buckets, in order. */
  lemma {:induction false} AggregationSummarises(cs: seq<Candle>, bucket: Bucketing)
    requires Monotone(bucket) && SortedByTime(cs) && AllWellFormed(cs)
    ensures StrictlySorted(Aggregated(cs, bucket))
    ensures SummarisesBuckets(Aggregated(cs, bucket), cs, bucket)
  {
    if cs != [] {
      var front, c := cs[..|cs| - 1], cs[|cs| - 1];
      AggregationSummarises(front, bucket);
      assert cs == front + [c];
      var s := Aggregated(front, bucket);
      TimesBelow(s, front, c, bucket);
      if s != [] && s[|s| - 1].time == bucket(c.time) {
        SummarisesAfterMerge(s, front, c, bucket);
      } else {
        SummarisesAfterStart(s, front, c, bucket);
      }
    }
  }

  /** No bar is named after a later bucket than the newest candle's. */
  lemma TimesBelow(s: seq<Candle>, front: seq<Candle>, c: Candle, bucket: Bucketing)
    requires SummarisesBuckets(s, front, bucket)
    requires Monotone(bucket) && forall i :: 0 <= i < |front| ==> front[i].time <= c.time
    ensures forall i :: 0 <= i < |s| ==> s[i].time <= bucket(c.time)
  {
    forall i | 0 <= i < |s| ensures s[i].time <= bucket(c.time) {
      assert IsSummary(s[i], front, bucket);
      BarTimeBound(front, c, bucket, s[i].time);
    }
  }

  lemma BarTimeBound(front: seq<Candle>, c: Candle, bucket: Bucketing, start: int)
    requires InBucket(front, bucket, start) != []
    requires Monotone(bucket) && forall i :: 0 <= i < |front| ==> front[i].time <= c.time
    ensures start <= bucket(c.time)
  {
    InBucketMembers(front, bucket, start);
    var d := InBucket(front, bucket, start)[0];
    assert d in InBucket(front, bucket, start);
    assert d.time <= c.time;
  }

  lemma UnseenBucket(s: seq<Candle>, front: seq<Candle>, bucket: Bucketing, start: int)
    requires Covered(s, front, bucket) && !HasTime(s, start)
    ensures InBucket(front, bucket, start) == []
  {
    forall i | 0 <= i < |front| ensures bucket(front[i].time) != start {
      assert HasTime(s, bucket(front[i].time));
    }
    NoneInBucket(front, bucket, start);
  }

  /** A candle of another bucket does not change a summary. */
  lemma SummaryUnaffected(bar: Candle, front: seq<Candle>, c: Candle, bucket: Bucketing)
    requires IsSummary(bar, front, bucket) && bar.time != bucket(c.time)
    ensures IsSummary(bar, front + [c], bucket)
  {
    InBucketStep(front, c, bucket, bar.time);
  }

  lemma SummaryJoined(bar: Candle, front: seq<Candle>, c: Candle, bucket: Bucketing)
    requires IsSummary(bar, front, bucket) && bar.time == bucket(c.time) && c.WellFormed()
    ensures IsSummary(Merge(bar, c), front + [c], bucket)
  {
    InBucketStep(front, c, bucket, bar.time);
    SummaryExtends(InBucket(front, bucket, bar.time), c, bar.time);
  }

  lemma SummaryStarted(front: seq<Candle>, c: Candle, bucket: Bucketing)
    requires InBucket(front, bucket, bucket(c.time)) == []
    ensures IsSummary(Start(c, bucket), front + [c], bucket)
  {
    InBucketStep(front, c, bucket, bucket(c.time));
    SummaryOfOne(c, bucket(c.time));
  }

  lemma CoveredAfter(s: seq<Candle>, out: seq<Candle>, front: seq<Candle>, c: Candle, bucket: Bucketing)
    requires Covered(s, front, bucket)
    requires |s| <= |out| && forall i :: 0 <= i < |s| ==> out[i].time == s[i].time
    requires HasTime(out, bucket(c.time))
    ensures Covered(out, front + [c], bucket)
  {
    var cs := front + [c];
    forall j | 0 <= j < |cs| ensures HasTime(out, bucket(cs[j].time)) {
      if j < |front| {
        assert HasTime(s, bucket(front[j].time));
        var i :| 0 <= i < |s| && s[i].time == bucket(front[j].time);
        assert out[i].time == bucket(front[j].time);
      }
    }
  }

  lemma SummarisesAfterMerge(s: seq<Candle>, front: seq<Candle>, c: Candle, bucket: Bucketing)
    requires StrictlySorted(s) && SummarisesBuckets(s, front, bucket) && c.WellFormed()
    requires s != [] && s[|s| - 1].time == bucket(c.time)
    ensures StrictlySorted(Absorb(s, c, bucket))
    ensures SummarisesBuckets(Absorb(s, c, bucket), front + [c], bucket)
  {
    var last := |s| - 1;
    var bar := Merge(s[last], c);
    assert Absorb(s, c, bucket) == s[..last] + [bar];
    SummaryJoined(s[last], front, c, bucket);
    LastReplaced(s, bar, front, c, bucket);
  }

  lemma LastReplaced(s: seq<Candle>, bar: Candle, front: seq<Candle>, c: Candle, bucket: Bucketing)
    requires StrictlySorted(s) && SummarisesBuckets(s, front, bucket)
    requires s != [] && s[|s| - 1].time == bar.time == bucket(c.time) && IsSummary(bar, front + [c], bucket)
    ensures StrictlySorted(s[..|s| - 1] + [bar])
    ensures SummarisesBuckets(s[..|s| - 1] + [bar], front + [c], bucket)
  {
    var last := |s| - 1;
    var out := s[..last] + [bar];
    forall i | 0 <= i < |out| ensures IsSummary(out[i], front + [c], bucket) {
      if i < last {
        assert s[i].time < s[last].time;
        SummaryUnaffected(s[i], front, c, bucket);
      }
    }
    HasTimeAt(out, last);
    CoveredAfter(s, out, front, c, bucket);
  }

  lemma AllEarlier(s: seq<Candle>, t: int)
    requires StrictlySorted(s) && forall i :: 0 <= i < |s| ==> s[i].time <= t
    requires s != [] ==> s[|s| - 1].time != t
    ensures forall i :: 0 <= i < |s| ==> s[i].time < t
    ensures !HasTime(s, t)
    ensures forall c: Candle :: c.time == t ==> StrictlySorted(s + [c])
  {
  }

  lemma SummarisesAfterStart(s: seq<Candle>, front: seq<Candle>, c: Candle, bucket: Bucketing)
    requires StrictlySorted(s) && SummarisesBuckets(s, front, bucket)
    requires forall i :: 0 <= i < |s| ==> s[i].time <= bucket(c.time)
    requires s != [] ==> s[|s| - 1].time != bucket(c.time)
    ensures StrictlySorted(s + [Start(c, bucket)])
    ensures SummarisesBuckets(s + [Start(c, bucket)], front + [c], bucket)
  {
    var out := s + [Start(c, bucket)];
    AllEarlier(s, bucket(c.time));
    UnseenBucket(s, front, bucket, bucket(c.time));
    forall i | 0 <= i < |out| ensures IsSummary(out[i], front + [c], bucket) {
      if i < |s| {
        SummaryUnaffected(s[i], front, c, bucket);
      } else {
        SummaryStarted(front, c, bucket);
      }
    }
    assert out[|s|].time == bucket(c.time);
    CoveredAfter(s, out, front, c, bucket);
  }
}
