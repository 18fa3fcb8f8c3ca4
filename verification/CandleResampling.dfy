/**
 * The dictionary resampler of backend/providers/alice_blue_provider.py, and its agreement with the
 * streaming aggregator.
 */
module CandleResampling {
  import opened Prelude
  import opened Candles
  import opened CandleAggregation

  /** Candles with a time; a missing time reads as 0 and is skipped the same way. */
  function Timed(cs: seq<Candle>): seq<Candle> {
    if cs == [] then []
    else
      var rest := Timed(cs[..|cs| - 1]);
      if cs[|cs| - 1].time != 0 then rest + [cs[|cs| - 1]] else rest
  }

  lemma {:induction false} TimedExactly(cs: seq<Candle>, c: Candle)
    ensures c in Timed(cs) <==> c in cs && c.time != 0
  {
    if cs != [] {
      TimedExactly(cs[..|cs| - 1], c);
      assert cs == cs[..|cs| - 1] + [cs[|cs| - 1]];
    }
  }

  /** The dictionary after reading the candles: one summary per occupied bucket. */
  ghost predicate HoldsSummaries(buckets: map<int, Candle>, cs: seq<Candle>, bucket: Bucketing) {
    && (forall b :: b in buckets ==> buckets[b].time == b && IsSummary(buckets[b], cs, bucket))
    && (forall j :: 0 <= j < |cs| ==> bucket(cs[j].time) in buckets)
  }

  function MinKey(keys: set<int>): (k: int)
    requires keys != {}
    ensures k in keys && forall x :: x in keys ==> k <= x
  {
    MinExists(keys);
    var k :| k in keys && forall x :: x in keys ==> k <= x;
    k
  }

  lemma SomeKey(keys: set<int>) returns (x: int)
    requires keys != {}
    ensures x in keys
  {
    assert (forall y :: y !in keys) ==> keys == {};
    x :| x in keys;
  }

  lemma {:induction false} MinExists(keys: set<int>)
    requires keys != {}
    ensures exists k :: k in keys && forall x :: x in keys ==> k <= x
  {
    var x := SomeKey(keys);
    var others := keys - {x};
    assert keys == others + {x};
    if others != {} {
      MinExists(others);
      var k :| k in others && forall y :: y in others ==> k <= y;
      var least := if x < k then x else k;
      forall y | y in keys ensures least <= y {
        assert y == x || y in others;
      }
    }
  }

  /** The dictionary's values sorted by their bucket. */
  function Ascending(m: map<int, Candle>): seq<Candle>
    decreases m.Keys
  {
    if m == map[] then []
    else
      var k := MinKey(m.Keys);
      [m[k]] + Ascending(m - {k})
  }

  lemma TotalVolumeCons(c: Candle, cs: seq<Candle>)
    ensures TotalVolume([c] + cs) == c.volume + TotalVolume(cs)
    decreases |cs|
  {
    if cs == [] {
      assert [c] + cs == [c];
      assert [c][..0] == [];
      assert TotalVolume([c]) == TotalVolume([]) + c.volume;
    } else {
      TotalVolumeCons(c, cs[..|cs| - 1]);
      assert ([c] + cs)[..|cs|] == [c] + cs[..|cs| - 1];
    }
  }

  /** Storing a candle adds its volume and removes that of the candle it replaces. */
  lemma {:induction false} StoreChangesVolume(m: map<int, Candle>, b: int, c: Candle)
    ensures TotalVolume(Ascending(m[b := c])) ==
      TotalVolume(Ascending(m)) + c.volume - if b in m then m[b].volume else 0
    decreases m.Keys
  {
    var after := m[b := c];
    var k := MinKey(after.Keys);
    TotalVolumeCons(after[k], Ascending(after - {k}));
    if k == b {
      if b in m {
        assert MinKey(m.Keys) == b by { assert m.Keys == after.Keys; }
        assert after - {b} == m - {b};
        TotalVolumeCons(m[b], Ascending(m - {b}));
      } else {
        assert after - {b} == m;
      }
    } else {
      assert k in m && MinKey(m.Keys) in after.Keys;
      assert after - {k} == (m - {k})[b := c];
      StoreChangesVolume(m - {k}, b, c);
      TotalVolumeCons(m[k], Ascending(m - {k}));
    }
  }

  /** The loop, for any assignment of times to buckets. */
  method ResampleBy(candles: seq<Candle>, bucketing: Bucketing) returns (buckets: map<int, Candle>)
    ensures HoldsSummaries(buckets, Timed(candles), bucketing)
    ensures TotalVolume(Ascending(buckets)) == TotalVolume(Timed(candles))
  {
    buckets := map[];
    for i := 0 to |candles|
      invariant HoldsSummaries(buckets, Timed(candles[..i]), bucketing)
      invariant TotalVolume(Ascending(buckets)) == TotalVolume(Timed(candles[..i]))
    {
      var c := candles[i];
      assert candles[..i + 1][..i] == candles[..i];
      if c.time == 0 {
        continue;
      }
      var bucket := bucketing(c.time);
      StoreKeepsSummaries(buckets, Timed(candles[..i]), c, bucketing);
      StoreKeepsVolume(buckets, Timed(candles[..i]), c, bucket);
      var bar := Widen(buckets, c, bucket);
      buckets := buckets[bucket := bar];
    }
    assert candles[..|candles|] == candles;
  }

  /** Builds the bar of a new bucket, or updates the fields of the bar that is there. */
  method Widen(buckets: map<int, Candle>, c: Candle, start: int) returns (bar: Candle)
    ensures bar == Widened(buckets, c, start)
  {
    if start !in buckets {
      bar := Candle(start, c.open, c.high, c.low, c.close, c.volume);
    } else {
      bar := buckets[start];
      bar := bar.(high := Max(bar.high, c.high));
      bar := bar.(low := Min(bar.low, c.low));
      bar := bar.(close := c.close);
      bar := bar.(volume := bar.volume + c.volume);
    }
  }

  method ResampleCandles(candles: seq<Candle>, minutes: int) returns (result: seq<Candle>)
    ensures minutes <= 1 ==> result == candles
    ensures minutes > 1 ==>
      && StrictlySorted(result)
      && SummarisesBuckets(result, Timed(candles), Buckets(minutes * 60))
      && TotalVolume(result) == TotalVolume(Timed(candles))
  {
    if candles == [] || minutes <= 1 {
      return candles;
    }
    var buckets := ResampleBy(candles, Buckets(minutes * 60));
    result := Ascending(buckets);
    AscendingSummarises(buckets, Timed(candles), Buckets(minutes * 60));
  }

  /** The bar stored for a candle: a new one, or the old one widened. */
  function Widened(buckets: map<int, Candle>, c: Candle, start: int): Candle {
    if start !in buckets then c.(time := start)
    else
      var b := buckets[start];
      b.(high := Max(b.high, c.high), low := Min(b.low, c.low), close := c.close, volume := b.volume + c.volume)
  }

  lemma StoreKeepsSummaries(buckets: map<int, Candle>, before: seq<Candle>, c: Candle, bucket: Bucketing)
    requires HoldsSummaries(buckets, before, bucket)
    ensures HoldsSummaries(buckets[bucket(c.time) := Widened(buckets, c, bucket(c.time))], before + [c], bucket)
  {
    var start := bucket(c.time);
    var bar := Widened(buckets, c, start);
    var after, cs := buckets[start := bar], before + [c];
    forall b | b in after ensures after[b].time == b && IsSummary(after[b], cs, bucket) {
      if b != start {
        SummaryUnaffected(buckets[b], before, c, bucket);
      } else if start in buckets {
        SummaryWidened(buckets[start], before, c, bucket);
      } else {
        EmptyBucket(buckets, before, bucket, start);
        SummaryStarted(before, c, bucket);
      }
    }
    assert forall j :: 0 <= j < |before| ==> cs[j] == before[j];
  }

  lemma StoreKeepsVolume(buckets: map<int, Candle>, before: seq<Candle>, c: Candle, start: int)
    requires TotalVolume(Ascending(buckets)) == TotalVolume(before)
    ensures TotalVolume(Ascending(buckets[start := Widened(buckets, c, start)])) == TotalVolume(before + [c])
  {
    StoreChangesVolume(buckets, start, Widened(buckets, c, start));
    assert (before + [c])[..|before|] == before;
  }

  lemma EmptyBucket(buckets: map<int, Candle>, before: seq<Candle>, bucket: Bucketing, start: int)
    requires forall j :: 0 <= j < |before| ==> bucket(before[j].time) in buckets
    requires start !in buckets
    ensures InBucket(before, bucket, start) == []
  {
    NoneInBucket(before, bucket, start);
  }

  lemma SummaryWidened(bar: Candle, before: seq<Candle>, c: Candle, bucket: Bucketing)
    requires IsSummary(bar, before, bucket) && bar.time == bucket(c.time)
    ensures IsSummary(Candle(bar.time, bar.open, Max(bar.high, c.high), Min(bar.low, c.low), c.close,
                             bar.volume + c.volume), before + [c], bucket)
  {
    InBucketStep(before, c, bucket, bar.time);
    SummaryExtends(InBucket(before, bucket, bar.time), c, bar.time);
  }

  lemma {:induction false} AscendingSorted(m: map<int, Candle>)
    requires forall b :: b in m ==> m[b].time == b
    ensures forall c :: c in Ascending(m) <==> c.time in m && m[c.time] == c
    ensures StrictlySorted(Ascending(m))
    decreases m.Keys
  {
    if m != map[] {
      var k := MinKey(m.Keys);
      var rest := m - {k};
      AscendingSorted(rest);
      var tail := Ascending(rest);
      forall j | 0 <= j < |tail| ensures m[k].time < tail[j].time {
        assert tail[j] in tail;
      }
    }
  }

  lemma AscendingSummarises(m: map<int, Candle>, cs: seq<Candle>, bucket: Bucketing)
    requires HoldsSummaries(m, cs, bucket)
    ensures StrictlySorted(Ascending(m))
    ensures SummarisesBuckets(Ascending(m), cs, bucket)
  {
    var out := Ascending(m);
    AscendingSorted(m);
    forall i | 0 <= i < |out| ensures IsSummary(out[i], cs, bucket) {
      assert out[i] in out;
    }
    forall j | 0 <= j < |cs| ensures HasTime(out, bucket(cs[j].time)) {
      assert m[bucket(cs[j].time)] in out;
    }
  }

  // ---------- The two agree ----------

  lemma {:induction false} AllTimed(cs: seq<Candle>)
    requires forall i :: 0 <= i < |cs| ==> cs[i].time != 0
    ensures Timed(cs) == cs
  {
    if cs != [] {
      AllTimed(cs[..|cs| - 1]);
    }
  }

  /**
   * On time-sorted well-formed candles none of which is at time 0, whatever the dictionary
   * resampler returns is the output of the streaming aggregator.
   */
  lemma ResamplersAgree(cs: seq<Candle>, width: int, resampled: seq<Candle>)
    requires width > 0 && SortedByTime(cs) && AllWellFormed(cs)
    requires forall i :: 0 <= i < |cs| ==> cs[i].time != 0
    requires StrictlySorted(resampled) && SummarisesBuckets(resampled, Timed(cs), Buckets(width))
    ensures resampled == Aggregated(cs, Buckets(width))
  {
    AllTimed(cs);
    BucketsMonotone(width);
    AggregationSummarises(cs, Buckets(width));
    SummariesUnique(resampled, Aggregated(cs, Buckets(width)), cs, Buckets(width));
  }

  /** Both providers turn the same candles into the same larger candles. */
  method ResampleBothWays(cs: seq<Candle>, minutes: int) returns (streamed: seq<Option<Candle>>, resampled: seq<Candle>)
    requires SortedByTime(cs) && AllWellFormed(cs)
    requires forall i :: 0 <= i < |cs| ==> cs[i].time != 0
    ensures streamed == Rows(resampled)
    ensures resampled == if minutes <= 1 then cs else Aggregated(cs, Buckets(minutes * 60))
  {
    streamed := AggregateIntraday(Rows(cs), minutes);
    resampled := ResampleCandles(cs, minutes);
    ParsedRows(cs);
    if minutes > 1 {
      ResamplersAgree(cs, minutes * 60, resampled);
    }
  }

  /** Every bar starts on a bucket boundary and covers the times it summarises. */
  lemma BarsAligned(out: seq<Candle>, cs: seq<Candle>, width: int, i: nat)
    requires width > 0 && i < |out| && SummarisesBuckets(out, cs, Buckets(width))
    ensures out[i].time % width == 0
    ensures forall c :: c in InBucket(cs, Buckets(width), out[i].time) <==>
      c in cs && out[i].time <= c.time < out[i].time + width
  {
    var start := out[i].time;
    assert IsSummary(out[i], cs, Buckets(width));
    var group := InBucket(cs, Buckets(width), start);
    InBucketMembers(cs, Buckets(width), start);
    assert group[0] in group;
    BucketProperties(group[0].time, width);
    forall c | c in cs ensures BucketOf(c.time, width) == start <==> start <= c.time < start + width {
      BucketProperties(c.time, width);
      BucketIsUnique(c.time, width, start);
    }
  }

  lemma BucketIsUnique(t: int, width: int, start: int)
    requires width > 0 && start % width == 0
    ensures start <= t < start + width ==> BucketOf(t, width) == start
  {
    if start <= t < start + width {
      var q := start / width;
      assert start == q * width;
      BucketUnique(t, width, q);
    }
  }

  /** A bar's high is the highest high of its candles and its low the lowest low. */
  lemma BarExtremes(group: seq<Candle>, time: int)
    requires group != []
    ensures forall i :: 0 <= i < |group| ==> Summary(group, time).low <= group[i].low && group[i].high <= Summary(group, time).high
    ensures exists i :: 0 <= i < |group| && group[i].high == Summary(group, time).high
    ensures exists i :: 0 <= i < |group| && group[i].low == Summary(group, time).low
  {
    MaxOfIsLargest(Highs(group));
    MaxOfIsLargest(Lows(group));
    forall i | 0 <= i < |group|
      ensures Summary(group, time).low <= group[i].low && group[i].high <= Summary(group, time).high
    {
      assert Highs(group)[i] == group[i].high && Lows(group)[i] == group[i].low;
    }
    var i :| 0 <= i < |group| && Highs(group)[i] == MaxOf(Highs(group));
    assert group[i].high == Summary(group, time).high;
    var j :| 0 <= j < |group| && Lows(group)[j] == MinOf(Lows(group));
    assert group[j].low == Summary(group, time).low;
  }

  /** Candle i is the first (or the last) one listed in the bucket. */
  ghost predicate FirstIn(cs: seq<Candle>, bucket: Bucketing, start: int, i: nat) {
    i < |cs| && bucket(cs[i].time) == start && forall j :: 0 <= j < i ==> bucket(cs[j].time) != start
  }

  ghost predicate LastIn(cs: seq<Candle>, bucket: Bucketing, start: int, i: nat) {
    i < |cs| && bucket(cs[i].time) == start && forall j :: i < j < |cs| ==> bucket(cs[j].time) != start
  }

  lemma {:induction false} GroupEnds(cs: seq<Candle>, bucket: Bucketing, start: int) returns (first: nat, last: nat)
    requires InBucket(cs, bucket, start) != []
    ensures FirstIn(cs, bucket, start, first) && LastIn(cs, bucket, start, last)
    ensures var group := InBucket(cs, bucket, start);
      cs[first] == group[0] && cs[last] == group[|group| - 1]
  {
    var n := |cs| - 1;
    var front := cs[..n];
    var before := InBucket(front, bucket, start);
    if before == [] {
      InBucketMembers(front, bucket, start);
      forall j | 0 <= j < n ensures bucket(cs[j].time) != start {
        assert front[j] in front && front[j] !in before;
      }
      first, last := n, n;
    } else {
      first, last := GroupEnds(front, bucket, start);
      assert forall j :: 0 <= j < n ==> front[j] == cs[j];
      if bucket(cs[n].time) == start {
        last := n;
      }
    }
  }

  /** A bar opens with the first candle listed in its bucket and closes with the last. */
  lemma BarEnds(out: seq<Candle>, cs: seq<Candle>, bucket: Bucketing, k: nat) returns (first: nat, last: nat)
    requires k < |out| && SummarisesBuckets(out, cs, bucket)
    ensures FirstIn(cs, bucket, out[k].time, first) && out[k].open == cs[first].open
    ensures LastIn(cs, bucket, out[k].time, last) && out[k].close == cs[last].close
  {
    assert IsSummary(out[k], cs, bucket);
    first, last := GroupEnds(cs, bucket, out[k].time);
  }
}
