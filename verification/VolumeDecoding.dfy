/**
 * How backend/providers/zebu_provider.py turns cumulative session volume into the volume of each
 * bar: once row by row while parsing, and once more over the finished list.
 */
module VolumeDecoding {
  import opened Prelude
  import opened Candles

  /**
   * Volume fields of one row after conversion to integers. `None` is an absent or blank field; text
   * that is not a number reads as `Some(0)`.
   */
  datatype RawVolume = RawVolume(interval: Option<int>, cumulative: Option<int>, alternatives: seq<Option<int>>,
                                 openInterest: Option<int>)

  predicate PositiveField(field: Option<int>) {
    field.Some? && field.value > 0
  }

  /** First positive alternative field, or else the open interest, never below zero. */
  function Fallback(alternatives: seq<Option<int>>, openInterest: Option<int>): (v: int)
    ensures v >= 0
  {
    if alternatives == [] then
      if PositiveField(openInterest) then openInterest.value else 0
    else if PositiveField(alternatives[0]) then alternatives[0].value
    else Fallback(alternatives[1..], openInterest)
  }

  /** The first positive field decides; the open interest only when there is none. */
  lemma {:induction false} FallbackIsFirst(alternatives: seq<Option<int>>, openInterest: Option<int>, i: nat)
    ensures i < |alternatives| && PositiveField(alternatives[i]) && (forall j :: 0 <= j < i ==> !PositiveField(alternatives[j])) ==>
      Fallback(alternatives, openInterest) == alternatives[i].value
    ensures (forall j :: 0 <= j < |alternatives| ==> !PositiveField(alternatives[j])) ==>
      Fallback(alternatives, openInterest) == if PositiveField(openInterest) then openInterest.value else 0
  {
    if alternatives != [] {
      FallbackIsFirst(alternatives[1..], openInterest, if i > 0 then i - 1 else 0);
      assert forall j :: 0 <= j < |alternatives| - 1 ==> alternatives[1..][j] == alternatives[j + 1];
    }
  }

  /** Volume of the bar and the cumulative reading to remember for the next row. */
  function ResolveBarVolume(c: RawVolume, previous: Option<int>): (r: (int, Option<int>))
    ensures r.0 >= 0
  {
    if PositiveField(c.interval) then (c.interval.value, previous)
    else if PositiveField(c.cumulative) then
      var reading := c.cumulative.value;
      var bar :=
        if previous.None? then reading
        else if reading >= previous.value then reading - previous.value
        else reading;
      (if bar >= 0 then bar else 0, Some(reading))
    else (Fallback(c.alternatives, c.openInterest), previous)
  }

  /** Bar volumes of successive rows, the remembered reading threaded through. */
  function DecodedVolumes(rows: seq<RawVolume>, previous: Option<int>): (bars: seq<int>)
    ensures |bars| == |rows|
  {
    if rows == [] then []
    else
      var (bar, next) := ResolveBarVolume(rows[0], previous);
      [bar] + DecodedVolumes(rows[1..], next)
  }

  predicate NonDecreasing(vs: seq<int>) {
    forall i :: 0 <= i < |vs| - 1 ==> vs[i] <= vs[i + 1]
  }

  lemma TailNonDecreasing(vs: seq<int>)
    requires vs != [] && NonDecreasing(vs)
    ensures NonDecreasing(vs[1..])
  {
    var tail := vs[1..];
    forall i | 0 <= i < |tail| - 1 ensures tail[i] <= tail[i + 1] {
      assert vs[i + 1] <= vs[i + 1 + 1];
    }
  }

  // ---------- Row-by-row decoding telescopes ----------

  /** The row is decoded from its cumulative reading. */
  predicate IsReading(c: RawVolume) {
    !PositiveField(c.interval) && PositiveField(c.cumulative)
  }

  function Readings(rows: seq<RawVolume>): seq<int> {
    if rows == [] then []
    else if IsReading(rows[0]) then [rows[0].cumulative.value] + Readings(rows[1..])
    else Readings(rows[1..])
  }

  /** Volume of a row that states the volume of its own bar. */
  function OwnVolume(c: RawVolume): int {
    if PositiveField(c.interval) then c.interval.value
    else if PositiveField(c.cumulative) then 0
    else Fallback(c.alternatives, c.openInterest)
  }

  function OwnVolumes(rows: seq<RawVolume>): int {
    if rows == [] then 0 else OwnVolume(rows[0]) + OwnVolumes(rows[1..])
  }

  /** Sum of the last readings of the maximal non-decreasing runs: one per session. */
  function SessionTotal(readings: seq<int>): int {
    if readings == [] then 0
    else (if EndsSession(readings, 0) then readings[0] else 0) + SessionTotal(readings[1..])
  }

  predicate EndsSession(readings: seq<int>, i: nat)
    requires i < |readings|
  {
    i + 1 == |readings| || readings[i + 1] < readings[i]
  }

  lemma SumIntCons(x: int, xs: seq<int>)
    ensures SumInt([x] + xs) == x + SumInt(xs)
  {
    SumIntConcat([x], xs);
    assert [x][..0] == [];
    assert SumInt([x]) == SumInt([]) + x;
  }

  lemma {:induction false} DecodedNonNegative(rows: seq<RawVolume>, previous: Option<int>)
    requires previous.Some? ==> previous.value > 0
    ensures forall i :: 0 <= i < |rows| ==> DecodedVolumes(rows, previous)[i] >= 0
  {
    if rows != [] {
      DecodedNonNegative(rows[1..], ResolveBarVolume(rows[0], previous).1);
    }
  }

  /** What has been decoded so far and the remembered reading add up to whole sessions. */
  lemma {:induction false} DecodingFrom(rows: seq<RawVolume>, previous: Option<int>)
    requires previous.Some? ==> previous.value > 0
    ensures SumInt(DecodedVolumes(rows, previous)) == OwnVolumes(rows) +
      if previous.None? then SessionTotal(Readings(rows))
      else SessionTotal([previous.value] + Readings(rows)) - previous.value
  {
    if rows != [] {
      var (bar, next) := ResolveBarVolume(rows[0], previous);
      DecodingFrom(rows[1..], next);
      SumIntCons(bar, DecodedVolumes(rows[1..], next));
      if IsReading(rows[0]) && previous.Some? {
        var reading := rows[0].cumulative.value;
        var rest := [reading] + Readings(rows[1..]);
        assert ([previous.value] + rest)[1..] == rest;
      }
    } else if previous.Some? {
      assert [previous.value] + [] == [previous.value];
      assert [previous.value][1..] == [];
    }
  }

  /**
   * The bars of a response add up to the session totals of its cumulative readings plus the
   * volumes that rows state for themselves, and no bar is negative.
   */
  lemma DecodingTelescopes(rows: seq<RawVolume>)
    ensures forall i :: 0 <= i < |rows| ==> DecodedVolumes(rows, None)[i] >= 0
    ensures SumInt(DecodedVolumes(rows, None)) == OwnVolumes(rows) + SessionTotal(Readings(rows))
  {
    DecodedNonNegative(rows, None);
    DecodingFrom(rows, None);
  }

  /** With cumulative readings only, the session totals are all there is. */
  lemma {:induction false} CumulativeFeed(rows: seq<RawVolume>)
    requires forall i :: 0 <= i < |rows| ==> IsReading(rows[i])
    ensures OwnVolumes(rows) == 0 && |Readings(rows)| == |rows|
    ensures forall i :: 0 <= i < |rows| ==> rows[i].cumulative == Some(Readings(rows)[i])
  {
    if rows != [] {
      CumulativeFeed(rows[1..]);
    }
  }

  /** A session without a reset adds up to its last reading. */
  lemma {:induction false} OneSession(readings: seq<int>)
    requires readings != []
    requires NonDecreasing(readings)
    ensures SessionTotal(readings) == readings[|readings| - 1]
  {
    if |readings| == 1 {
      assert readings[1..] == [];
    } else {
      TailNonDecreasing(readings);
      OneSession(readings[1..]);
    }
  }

  // ---------- Conversion of a finished list ----------

  function Positives(vs: seq<int>): (ps: seq<int>)
    ensures |ps| <= |vs|
    ensures forall i :: 0 <= i < |ps| ==> ps[i] > 0
  {
    if vs == [] then []
    else (if vs[0] > 0 then [vs[0]] else []) + Positives(vs[1..])
  }

  /** The guard: at least three positive volumes that never fall and rise overall. */
  predicate LooksCumulative(vs: seq<int>) {
    var ps := Positives(vs);
    |vs| >= 2 && |ps| >= 3 && NonDecreasing(ps) && ps[|ps| - 1] > ps[0]
  }

  /** Differences of successive positive readings; a reading that does not rise is kept whole. */
  function Deltas(vs: seq<int>, previous: int): (ds: seq<int>)
    ensures |ds| == |vs|
  {
    if vs == [] then []
    else if vs[0] > previous then [vs[0] - previous] + Deltas(vs[1..], vs[0])
    else [if vs[0] > 0 then vs[0] else 0] + Deltas(vs[1..], if vs[0] > 0 then vs[0] else previous)
  }

  function ConvertedVolumes(vs: seq<int>): (ws: seq<int>)
    ensures |ws| == |vs|
  {
    if LooksCumulative(vs) then Deltas(vs, 0) else vs
  }

  function Volumes(cs: seq<Candle>): (vs: seq<int>)
    ensures |vs| == |cs|
  {
    seq(|cs|, i requires 0 <= i < |cs| => cs[i].volume)
  }

  function WithVolumes(cs: seq<Candle>, vs: seq<int>): (out: seq<Candle>)
    requires |vs| == |cs|
    ensures |out| == |cs|
  {
    seq(|cs|, i requires 0 <= i < |cs| => cs[i].(volume := vs[i]))
  }

  lemma {:induction false} DeltasSplit(vs: seq<int>, i: nat, previous: int)
    requires i < |vs|
    ensures Deltas(vs, previous)[i] == DeltaAt(vs, i, previous)
    decreases i
  {
    if i > 0 {
      DeltasSplit(vs[1..], i - 1, if vs[0] > previous || vs[0] > 0 then vs[0] else previous);
      assert vs[1..][..i - 1] == vs[1..i];
      assert vs[..i][1..] == vs[1..i];
    }
  }

  /** The reading remembered after some volumes: the latest one that was positive or rose. */
  function Remembered(vs: seq<int>, previous: int): int {
    if vs == [] then previous
    else Remembered(vs[1..], if vs[0] > previous || vs[0] > 0 then vs[0] else previous)
  }

  function DeltaAt(vs: seq<int>, i: nat, previous: int): int
    requires i < |vs|
  {
    var p := Remembered(vs[..i], previous);
    if vs[i] > p then vs[i] - p else if vs[i] > 0 then vs[i] else 0
  }

  lemma {:induction false} RememberedStep(vs: seq<int>, v: int, previous: int)
    ensures Remembered(vs + [v], previous) ==
      var p := Remembered(vs, previous); if v > p || v > 0 then v else p
  {
    if vs == [] {
      assert vs + [v] == [v];
    } else {
      RememberedStep(vs[1..], v, if vs[0] > previous || vs[0] > 0 then vs[0] else previous);
      assert (vs + [v])[1..] == vs[1..] + [v];
    }
  }

  method ConvertMonotonicVolumesToDeltas(candles: seq<Candle>) returns (out: seq<Candle>)
    ensures out == WithVolumes(candles, ConvertedVolumes(Volumes(candles)))
  {
    var vols := Volumes(candles);
    var positives := Positives(vols);
    if |candles| < 2 || |positives| < 3 || !NonDecreasing(positives) || positives[|positives| - 1] <= positives[0] {
      assert candles == WithVolumes(candles, vols);
      return candles;
    }
    var prev := 0;
    out := [];
    for i := 0 to |candles|
      invariant |out| == i
      invariant prev == Remembered(vols[..i], 0) >= 0
      invariant forall j :: 0 <= j < i ==> out[j] == candles[j].(volume := Deltas(vols, 0)[j])
    {
      RememberedStep(vols[..i], vols[i], 0);
      assert vols[..i + 1] == vols[..i] + [vols[i]];
      DeltasSplit(vols, i, 0);
      var raw := vols[i];
      var bar := 0;
      if raw > prev {
        bar := raw - prev;
        prev := raw;
      } else {
        bar := if raw > 0 then raw else 0;
        if raw > 0 {
          prev := raw;
        }
      }
      out := out + [candles[i].(volume := if bar > 0 then bar else 0)];
    }
  }

  // ---------- What the conversion does to the total ----------

  /** Readings equal to their predecessor: the conversion emits them whole instead of as 0. */
  function PlateauTotal(ps: seq<int>): int {
    if |ps| <= 1 then 0
    else (if ps[1] == ps[0] then ps[1] else 0) + PlateauTotal(ps[1..])
  }

  lemma {:induction false} DeltasOfPositives(vs: seq<int>, previous: int)
    requires previous >= 0
    ensures SumInt(Deltas(vs, previous)) == SumInt(Deltas(Positives(vs), previous))
  {
    if vs != [] {
      var rest := vs[1..];
      if vs[0] > 0 {
        assert Positives(vs)[1..] == Positives(rest);
        DeltasOfPositives(rest, vs[0]);
        SumIntCons(Deltas(vs, previous)[0], Deltas(rest, vs[0]));
        SumIntCons(Deltas(vs, previous)[0], Deltas(Positives(rest), vs[0]));
      } else {
        assert Positives(vs) == Positives(rest);
        DeltasOfPositives(rest, previous);
        SumIntCons(0, Deltas(rest, previous));
      }
    }
  }

  lemma {:induction false} DeltasTotal(ps: seq<int>, previous: int)
    requires previous >= 0 && forall i :: 0 <= i < |ps| ==> ps[i] > 0
    requires NonDecreasing(ps) && (ps != [] ==> previous <= ps[0])
    ensures SumInt(Deltas(ps, previous)) ==
      if ps == [] then 0 else ps[|ps| - 1] - previous + (if ps[0] == previous then previous else 0) + PlateauTotal(ps)
  {
    if ps != [] {
      var rest := ps[1..];
      TailNonDecreasing(ps);
      DeltasTotal(rest, ps[0]);
      SumIntCons(Deltas(ps, previous)[0], Deltas(rest, ps[0]));
    }
  }

  /** The total of a converted list is its last positive reading plus its plateau readings. */
  lemma ConvertedTotal(vs: seq<int>)
    requires LooksCumulative(vs)
    ensures var ps := Positives(vs);
      SumInt(ConvertedVolumes(vs)) == ps[|ps| - 1] + PlateauTotal(ps)
  {
    DeltasOfPositives(vs, 0);
    DeltasTotal(Positives(vs), 0);
  }

  lemma {:induction false} SumOfPositives(vs: seq<int>)
    requires forall i :: 0 <= i < |vs| ==> vs[i] >= 0
    ensures SumInt(vs) == SumInt(Positives(vs))
  {
    if vs != [] {
      SumOfPositives(vs[1..]);
      assert vs == [vs[0]] + vs[1..];
      SumIntCons(vs[0], vs[1..]);
      if vs[0] > 0 {
        SumIntCons(vs[0], Positives(vs[1..]));
      } else {
        assert Positives(vs) == Positives(vs[1..]);
      }
    }
  }

  /** Last reading plus plateaus never exceeds the sum, and reaches it only on a constant list. */
  lemma {:induction false} PlateausFallShort(ps: seq<int>)
    requires ps != [] && NonDecreasing(ps) && forall i :: 0 <= i < |ps| ==> ps[i] > 0
    ensures ps[|ps| - 1] + PlateauTotal(ps) <= SumInt(ps)
    ensures ps[|ps| - 1] + PlateauTotal(ps) == SumInt(ps) <==> ps[0] == ps[|ps| - 1]
  {
    assert ps == [ps[0]] + ps[1..];
    SumIntCons(ps[0], ps[1..]);
    if |ps| > 1 {
      TailNonDecreasing(ps);
      PlateausFallShort(ps[1..]);
      FirstIsLeast(ps[1..]);
      assert ps[0] <= ps[0 + 1];
    }
  }

  lemma {:induction false} FirstIsLeast(ps: seq<int>)
    requires ps != [] && NonDecreasing(ps)
    ensures ps[0] <= ps[|ps| - 1]
  {
    if |ps| > 1 {
      TailNonDecreasing(ps);
      FirstIsLeast(ps[1..]);
    }
  }

  /** The conversion keeps the total volume exactly when its guard leaves the list alone. */
  lemma ConversionConservesExactly(vs: seq<int>)
    requires forall i :: 0 <= i < |vs| ==> vs[i] >= 0
    ensures SumInt(ConvertedVolumes(vs)) == SumInt(vs) <==> !LooksCumulative(vs)
    ensures SumInt(ConvertedVolumes(vs)) <= SumInt(vs)
  {
    if LooksCumulative(vs) {
      ConvertedTotal(vs);
      SumOfPositives(vs);
      StrictShortfall(Positives(vs));
    }
  }

  lemma StrictShortfall(ps: seq<int>)
    requires |ps| >= 3 && NonDecreasing(ps) && ps[|ps| - 1] > ps[0] && forall i :: 0 <= i < |ps| ==> ps[i] > 0
    ensures ps[|ps| - 1] + PlateauTotal(ps) < SumInt(ps)
  {
    PlateausFallShort(ps);
  }

  // ---------- When the conversion acts ----------

  /** The positive volumes never fall. */
  ghost predicate NeverFalls(vs: seq<int>) {
    forall i, j :: 0 <= i < j < |vs| && vs[i] > 0 && vs[j] > 0 ==> vs[i] <= vs[j]
  }

  /** Some positive volume is larger than an earlier one. */
  ghost predicate Rises(vs: seq<int>) {
    exists i, j :: 0 <= i < j < |vs| && 0 < vs[i] < vs[j]
  }

  function PositiveBars(vs: seq<int>): set<nat> {
    set i: nat | i < |vs| && vs[i] > 0
  }

  lemma PositivesCons(v: int, vs: seq<int>)
    ensures Positives([v] + vs) == (if v > 0 then [v] else []) + Positives(vs)
  {
    assert ([v] + vs)[1..] == vs;
  }

  lemma {:induction false} PositivesAppend(vs: seq<int>, v: int)
    ensures Positives(vs + [v]) == Positives(vs) + if v > 0 then [v] else []
  {
    if vs == [] {
      assert vs + [v] == [v] + [];
      PositivesCons(v, []);
    } else {
      var first, rest := vs[0], vs[1..];
      PositivesAppend(rest, v);
      PositivesCons(first, rest + [v]);
      PositivesCons(first, rest);
      assert vs == [first] + rest;
      Associates([first], rest, [v]);
      Associates(if first > 0 then [first] else [], Positives(rest), if v > 0 then [v] else []);
    }
  }

  lemma Associates(a: seq<int>, b: seq<int>, c: seq<int>)
    ensures a + b + c == a + (b + c)
  {
  }

  lemma {:induction false} PositivesCount(vs: seq<int>)
    ensures |Positives(vs)| == |PositiveBars(vs)|
  {
    if vs == [] {
      assert PositiveBars(vs) == {};
    } else {
      var n := |vs| - 1;
      PositivesCount(vs[..n]);
      PositivesAppend(vs[..n], vs[n]);
      assert vs == vs[..n] + [vs[n]];
      assert PositiveBars(vs) == PositiveBars(vs[..n]) + if vs[n] > 0 then {n} else {};
    }
  }

  lemma {:induction false} PositivesMembers(vs: seq<int>, p: int)
    ensures p in Positives(vs) <==> p > 0 && p in vs
  {
    if vs != [] {
      PositivesMembers(vs[1..], p);
      assert vs == [vs[0]] + vs[1..];
    }
  }

  lemma {:induction false} NonDecreasingFrom(ps: seq<int>, i: nat, j: nat)
    requires NonDecreasing(ps) && i <= j < |ps|
    ensures ps[i] <= ps[j]
  {
    if i < j {
      NonDecreasingFrom(ps, i, j - 1);
      assert ps[j - 1] <= ps[j - 1 + 1];
    }
  }

  lemma {:induction false} PositivesNeverFall(vs: seq<int>)
    ensures NonDecreasing(Positives(vs)) <==> NeverFalls(vs)
  {
    if vs != [] {
      var rest := vs[1..];
      var ps := Positives(rest);
      PositivesNeverFall(rest);
      TailNeverFalls(vs);
      if vs[0] > 0 {
        assert Positives(vs) == [vs[0]] + ps;
        ConsNonDecreasing(vs[0], ps);
        forall p ensures p in ps <==> p > 0 && p in rest {
          PositivesMembers(rest, p);
        }
      } else {
        assert Positives(vs) == ps;
      }
    }
  }

  lemma ConsNonDecreasing(v: int, ps: seq<int>)
    ensures NonDecreasing([v] + ps) <==> NonDecreasing(ps) && forall p :: p in ps ==> v <= p
  {
    var all := [v] + ps;
    if NonDecreasing(all) {
      TailNonDecreasing(all);
      forall p | p in ps ensures v <= p {
        var k :| 0 <= k < |ps| && ps[k] == p;
        NonDecreasingFrom(all, 0, k + 1);
      }
    }
    if NonDecreasing(ps) && forall p :: p in ps ==> v <= p {
      forall i | 0 <= i < |all| - 1 ensures all[i] <= all[i + 1] {
        if i > 0 {
          assert ps[i - 1] <= ps[i - 1 + 1];
        } else {
          assert ps[0] in ps;
        }
      }
    }
  }

  lemma TailNeverFalls(vs: seq<int>)
    requires vs != []
    ensures NeverFalls(vs) <==> NeverFalls(vs[1..]) && (vs[0] > 0 ==> forall p :: p in vs[1..] && p > 0 ==> vs[0] <= p)
  {
    var rest := vs[1..];
    if NeverFalls(vs) {
      forall i, j | 0 <= i < j < |rest| && rest[i] > 0 && rest[j] > 0 ensures rest[i] <= rest[j] {
        assert vs[i + 1] == rest[i] && vs[j + 1] == rest[j];
      }
      forall p | p in rest && p > 0 && vs[0] > 0 ensures vs[0] <= p {
        var k :| 0 <= k < |rest| && rest[k] == p;
        assert vs[k + 1] == p;
      }
    }
    if NeverFalls(rest) && (vs[0] > 0 ==> forall p :: p in rest && p > 0 ==> vs[0] <= p) {
      forall i, j | 0 <= i < j < |vs| && vs[i] > 0 && vs[j] > 0 ensures vs[i] <= vs[j] {
        assert vs[j] == rest[j - 1] && rest[j - 1] in rest;
        if i > 0 {
          assert vs[i] == rest[i - 1];
        }
      }
    }
  }

  lemma PositivesRise(vs: seq<int>)
    requires NeverFalls(vs) && NonDecreasing(Positives(vs)) && Positives(vs) != []
    ensures Positives(vs)[|Positives(vs)| - 1] > Positives(vs)[0] <==> Rises(vs)
  {
    var ps := Positives(vs);
    var first, last := ps[0], ps[|ps| - 1];
    PositivesMembers(vs, first);
    PositivesMembers(vs, last);
    if last > first {
      assert first in ps && last in ps;
      var i :| 0 <= i < |vs| && vs[i] == first;
      var j :| 0 <= j < |vs| && vs[j] == last;
      assert i < j;
    }
    if Rises(vs) {
      var i, j :| 0 <= i < j < |vs| && 0 < vs[i] < vs[j];
      PositivesMembers(vs, vs[i]);
      PositivesMembers(vs, vs[j]);
      var a :| 0 <= a < |ps| && ps[a] == vs[i];
      var b :| 0 <= b < |ps| && ps[b] == vs[j];
      NonDecreasingFrom(ps, 0, a);
      NonDecreasingFrom(ps, b, |ps| - 1);
    }
  }

  /**
   * The conversion changes a list exactly when at least three of its volumes are positive, these never
   * fall, and some of them rises.
   */
  lemma ConversionActsExactly(vs: seq<int>)
    requires forall i :: 0 <= i < |vs| ==> vs[i] >= 0
    ensures ConvertedVolumes(vs) != vs <==> |PositiveBars(vs)| >= 3 && NeverFalls(vs) && Rises(vs)
  {
    ConversionConservesExactly(vs);
    PositivesCount(vs);
    PositivesNeverFall(vs);
    if NeverFalls(vs) && Positives(vs) != [] {
      PositivesRise(vs);
    }
  }

  // ---------- Conversion inverts running totals ----------

  function RunningTotals(bars: seq<int>, start: int): (totals: seq<int>)
    ensures |totals| == |bars|
  {
    if bars == [] then [] else [start + bars[0]] + RunningTotals(bars[1..], start + bars[0])
  }

  /** Strictly increasing from a starting value. */
  ghost predicate RisesFrom(ts: seq<int>, start: int) {
    ts == [] || (start < ts[0] && RisesFrom(ts[1..], ts[0]))
  }

  lemma {:induction false} TotalsRise(bars: seq<int>, start: int)
    requires forall i :: 0 <= i < |bars| ==> bars[i] > 0
    ensures RisesFrom(RunningTotals(bars, start), start)
  {
    if bars != [] {
      TotalsRise(bars[1..], start + bars[0]);
    }
  }

  lemma {:induction false} DeltasOfTotals(bars: seq<int>, start: int)
    requires forall i :: 0 <= i < |bars| ==> bars[i] > 0
    ensures Deltas(RunningTotals(bars, start), start) == bars
  {
    if bars != [] {
      DeltasOfTotals(bars[1..], start + bars[0]);
    }
  }

  lemma {:induction false} RisingArePositive(ts: seq<int>, start: int)
    requires start >= 0 && RisesFrom(ts, start)
    ensures Positives(ts) == ts
    ensures ts != [] ==> start < ts[|ts| - 1]
    ensures |ts| >= 2 ==> ts[0] < ts[|ts| - 1]
  {
    if ts != [] {
      RisingArePositive(ts[1..], ts[0]);
    }
  }

  lemma {:induction false} RisingNonDecreasing(ts: seq<int>, start: int)
    requires RisesFrom(ts, start)
    ensures NonDecreasing(ts)
  {
    if |ts| > 1 {
      RisingNonDecreasing(ts[1..], ts[0]);
      forall i | 0 <= i < |ts| - 1 ensures ts[i] <= ts[i + 1] {
        if i > 0 {
          assert ts[1..][i - 1] <= ts[1..][i - 1 + 1];
        }
      }
    }
  }

  lemma RisingLooksCumulative(ts: seq<int>)
    requires |ts| >= 3 && RisesFrom(ts, 0)
    ensures LooksCumulative(ts)
  {
    RisingArePositive(ts, 0);
    RisingNonDecreasing(ts, 0);
  }

  /** For three or more positive bars, converting their running totals gives the bars back. */
  lemma ConversionInvertsRunningTotals(bars: seq<int>)
    requires |bars| >= 3 && forall i :: 0 <= i < |bars| ==> bars[i] > 0
    ensures LooksCumulative(RunningTotals(bars, 0))
    ensures ConvertedVolumes(RunningTotals(bars, 0)) == bars
  {
    TotalsRise(bars, 0);
    RisingLooksCumulative(RunningTotals(bars, 0));
    DeltasOfTotals(bars, 0);
  }
}
