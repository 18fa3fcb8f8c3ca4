/** Candles, their buckets, and what one candle covering a whole bucket looks like. */
module Candles {
  import opened Prelude

  datatype Candle = Candle(time: int, open: real, high: real, low: real, close: real, volume: int) {
    /** Open and close lie within the range of the bar. */
    predicate WellFormed() {
      low <= open <= high && low <= close <= high
    }
  }

  ghost predicate AllWellFormed(cs: seq<Candle>) {
    forall i :: 0 <= i < |cs| ==> cs[i].WellFormed()
  }

  ghost predicate SortedByTime(cs: seq<Candle>) {
    forall i, j :: 0 <= i < j < |cs| ==> cs[i].time <= cs[j].time
  }

  ghost predicate StrictlySorted(cs: seq<Candle>) {
    forall i, j :: 0 <= i < j < |cs| ==> cs[i].time < cs[j].time
  }

  function TotalVolume(cs: seq<Candle>): int {
    if cs == [] then 0 else TotalVolume(cs[..|cs| - 1]) + cs[|cs| - 1].volume
  }

  /** Start of the bucket of `width` seconds that holds time t. */
  function BucketOf(t: int, width: int): int
    requires width > 0
  {
    t / width * width
  }

  lemma BucketProperties(t: int, width: int)
    requires width > 0
    ensures BucketOf(t, width) <= t < BucketOf(t, width) + width
    ensures BucketOf(t, width) % width == 0
    ensures BucketOf(BucketOf(t, width), width) == BucketOf(t, width)
  {
    var q := t / width;
    assert t == q * width + t % width;
    BucketUnique(q * width, width, q);
    ModOfMultiple(q, width);
  }

  /** A non-zero multiple of the width is at least a width away from zero. */
  lemma MultipleGap(d: int, width: int)
    requires width > 0
    ensures d >= 1 ==> d * width >= width
    ensures d <= -1 ==> d * width <= -width
  {
    if d >= 1 {
      assert d * width == width + (d - 1) * width;
    } else if d <= -1 {
      assert d * width == -width + (d + 1) * width;
    }
  }

  lemma ModOfMultiple(q: int, width: int)
    requires width > 0
    ensures q * width % width == 0
  {
    var p, r := q * width / width, q * width % width;
    assert q * width == p * width + r;
    assert (q - p) * width == r;
    MultipleGap(q - p, width);
  }

  /** The only multiple of the width within a width below t is t's bucket. */
  lemma BucketUnique(t: int, width: int, q: int)
    requires width > 0 && q * width <= t < q * width + width
    ensures t / width == q
  {
    var p, r := t / width, t % width;
    assert t == p * width + r;
    assert (q - p) * width == q * width - p * width;
    MultipleGap(q - p, width);
  }

  lemma BucketMonotone(s: int, t: int, width: int)
    requires width > 0 && s <= t
    ensures BucketOf(s, width) <= BucketOf(t, width)
  {
    var p, q := s / width, t / width;
    assert s == p * width + s % width && t == q * width + t % width;
    assert (q - p) * width == q * width - p * width;
    MultipleGap(q - p, width);
  }

  /** Buckets nest: the wide bucket of a narrow bucket's start is the wide bucket of its times. */
  lemma BucketsNest(t: int, narrow: int, factor: int)
    requires narrow > 0 && factor > 0
    ensures narrow * factor > 0
    ensures BucketOf(BucketOf(t, narrow), narrow * factor) == BucketOf(t, narrow * factor)
  {
    var wide := narrow * factor;
    assert wide > 0;
    var q := t / wide;
    assert t == q * wide + t % wide;
    var b := t / narrow;
    BucketProperties(t, narrow);
    assert q * wide == (q * factor) * narrow;
    var d := b - q * factor;
    assert b * narrow - q * wide == d * narrow;
    assert t - q * wide >= 0;
    MultipleGap(d, narrow);
    assert b * narrow <= t < q * wide + wide;
    BucketUnique(b * narrow, wide, q);
  }

  /** Assignment of times to buckets, each bucket named by its start. */
  type Bucketing = int -> int

  function Buckets(width: int): Bucketing
    requires width > 0
  {
    (t: int) => BucketOf(t, width)
  }

  ghost predicate Monotone(bucket: Bucketing) {
    forall s, t :: s <= t ==> bucket(s) <= bucket(t)
  }

  /** The coarse bucket of a time is the coarse bucket of its fine bucket. */
  ghost predicate Refines(fine: Bucketing, coarse: Bucketing) {
    forall t {:trigger fine(t)} :: coarse(fine(t)) == coarse(t)
  }

  lemma BucketsMonotone(width: int)
    requires width > 0
    ensures Monotone(Buckets(width))
  {
    forall s, t | s <= t ensures Buckets(width)(s) <= Buckets(width)(t) {
      BucketMonotone(s, t, width);
    }
  }

  lemma BucketsRefine(narrow: int, factor: int)
    requires narrow > 0 && factor > 0
    ensures narrow * factor > 0 && Refines(Buckets(narrow), Buckets(narrow * factor))
  {
    BucketsNest(0, narrow, factor);
    forall t ensures Buckets(narrow * factor)(Buckets(narrow)(t)) == Buckets(narrow * factor)(t) {
      BucketsNest(t, narrow, factor);
    }
  }

  // ---------- One candle for a whole bucket ----------

  /** Candles whose time falls into the bucket starting at `start`, in order. */
  function InBucket(cs: seq<Candle>, bucket: Bucketing, start: int): seq<Candle> {
    if cs == [] then []
    else
      var rest := InBucket(cs[..|cs| - 1], bucket, start);
      var last := cs[|cs| - 1];
      if bucket(last.time) == start then rest + [last] else rest
  }

  function Highs(cs: seq<Candle>): (hs: seq<real>)
    ensures |hs| == |cs|
  {
    seq(|cs|, i requires 0 <= i < |cs| => cs[i].high)
  }

  function Lows(cs: seq<Candle>): (ls: seq<real>)
    ensures |ls| == |cs|
  {
    seq(|cs|, i requires 0 <= i < |cs| => cs[i].low)
  }

  /** Open of the first, close of the last, extremes and total volume of a group of candles. */
  function Summary(group: seq<Candle>, time: int): Candle
    requires group != []
  {
    Candle(time, group[0].open, MaxOf(Highs(group)), MinOf(Lows(group)), group[|group| - 1].close, TotalVolume(group))
  }

  ghost predicate HasTime(cs: seq<Candle>, t: int) {
    exists i :: 0 <= i < |cs| && cs[i].time == t
  }

  /** The bar summarises the candles of the bucket it is named after. */
  ghost predicate IsSummary(bar: Candle, cs: seq<Candle>, bucket: Bucketing) {
    InBucket(cs, bucket, bar.time) != [] && bar == Summary(InBucket(cs, bucket, bar.time), bar.time)
  }

  ghost predicate Covered(out: seq<Candle>, cs: seq<Candle>, bucket: Bucketing) {
    forall j :: 0 <= j < |cs| ==> HasTime(out, bucket(cs[j].time))
  }

  /** The bars of `out` are the summaries of exactly the occupied buckets of `cs`. */
  ghost predicate SummarisesBuckets(out: seq<Candle>, cs: seq<Candle>, bucket: Bucketing) {
    (forall i :: 0 <= i < |out| ==> IsSummary(out[i], cs, bucket)) && Covered(out, cs, bucket)
  }

  lemma {:induction false} InBucketMembers(cs: seq<Candle>, bucket: Bucketing, start: int)
    ensures forall c :: c in InBucket(cs, bucket, start) <==> c in cs && bucket(c.time) == start
  {
    if cs != [] {
      InBucketMembers(cs[..|cs| - 1], bucket, start);
      assert cs == cs[..|cs| - 1] + [cs[|cs| - 1]];
    }
  }

  /** In time order, the bars that summarise the buckets are determined. */
  lemma SummariesUnique(a: seq<Candle>, b: seq<Candle>, cs: seq<Candle>, bucket: Bucketing)
    requires StrictlySorted(a) && StrictlySorted(b)
    requires SummarisesBuckets(a, cs, bucket) && SummarisesBuckets(b, cs, bucket)
    ensures a == b
  {
    forall t ensures HasTime(a, t) <==> HasTime(b, t) {
      TimesCovered(a, b, cs, bucket, t);
      TimesCovered(b, a, cs, bucket, t);
    }
    SameTimesSameLength(a, b);
    forall i | 0 <= i < |a| ensures a[i] == b[i] {
      assert a[i].time == b[i].time;
      assert IsSummary(a[i], cs, bucket) && IsSummary(b[i], cs, bucket);
    }
  }

  lemma TimesCovered(a: seq<Candle>, b: seq<Candle>, cs: seq<Candle>, bucket: Bucketing, t: int)
    requires SummarisesBuckets(a, cs, bucket) && SummarisesBuckets(b, cs, bucket)
    ensures HasTime(a, t) ==> HasTime(b, t)
  {
    if HasTime(a, t) {
      var i :| 0 <= i < |a| && a[i].time == t;
      assert IsSummary(a[i], cs, bucket);
      var c := InBucket(cs, bucket, t)[0];
      InBucketMembers(cs, bucket, t);
      assert c in InBucket(cs, bucket, t);
      var j :| 0 <= j < |cs| && cs[j] == c;
      assert HasTime(b, bucket(cs[j].time));
    }
  }

  lemma {:induction false} SameTimesSameLength(a: seq<Candle>, b: seq<Candle>)
    requires StrictlySorted(a) && StrictlySorted(b)
    requires forall t :: HasTime(a, t) <==> HasTime(b, t)
    ensures |a| == |b| && forall i :: 0 <= i < |a| ==> a[i].time == b[i].time
  {
    var m, n := |a| - 1, |b| - 1;
    if a == [] {
      if b != [] {
        HasTimeAt(b, n);
      }
    } else {
      HasTimeAt(a, m);
      if b != [] {
        HasTimeAt(b, n);
        LastTimesEqual(a, b);
        forall t ensures HasTime(a[..m], t) <==> HasTime(b[..n], t) {
          DropsLastTime(a, t);
          DropsLastTime(b, t);
        }
        SameTimesSameLength(a[..m], b[..n]);
      }
    }
  }

  lemma HasTimeAt(a: seq<Candle>, i: nat)
    requires i < |a|
    ensures HasTime(a, a[i].time)
  {
  }

  lemma LastTimesEqual(a: seq<Candle>, b: seq<Candle>)
    requires a != [] && b != [] && StrictlySorted(a) && StrictlySorted(b)
    requires HasTime(a, b[|b| - 1].time) && HasTime(b, a[|a| - 1].time)
    ensures a[|a| - 1].time == b[|b| - 1].time
  {
    var i :| 0 <= i < |a| && a[i].time == b[|b| - 1].time;
    var j :| 0 <= j < |b| && b[j].time == a[|a| - 1].time;
  }

  lemma DropsLastTime(a: seq<Candle>, t: int)
    requires a != [] && StrictlySorted(a)
    ensures HasTime(a[..|a| - 1], t) <==> HasTime(a, t) && t != a[|a| - 1].time
  {
    var front := a[..|a| - 1];
    if HasTime(front, t) {
      var i :| 0 <= i < |front| && front[i].time == t;
      assert a[i].time == t;
    }
    if HasTime(a, t) && t != a[|a| - 1].time {
      var i :| 0 <= i < |a| && a[i].time == t;
      assert front[i].time == t;
    }
  }
}
