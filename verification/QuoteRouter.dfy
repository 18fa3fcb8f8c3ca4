/** Which of two quotes for a symbol wins, from backend/market/quote_router.py. */
module QuoteRouter {
  import opened Prelude

  /** A quote with its times in seconds. `price` and `ltp` are two names feeds give the last price. */
  datatype Quote = Quote(ts: real, sequence: int, source: string, price: Option<real>, ltp: Option<real>)

  // ---------- The rule ----------

  function LowerChar(c: char): char {
    if 'A' <= c <= 'Z' then c - 'A' + 'a' else c
  }

  function Lower(s: string): (t: string)
    ensures |t| == |s|
  {
    seq(|s|, i requires 0 <= i < |s| => LowerChar(s[i]))
  }

  const RANK_OPEN: map<string, int> := map[
    "historical_replay" := 5, "live_ws" := 5, "live" := 5, "market_data_worker" := 4, "poll" := 3,
    "worker" := 3, "rest" := 2, "history_snapshot" := 1, "frozen" := 1, "eod" := 6]

  const RANK_CLOSED: map<string, int> := map[
    "official_eod_close" := 11, "eod" := 10, "frozen" := 9, "history_snapshot" := 8,
    "historical_replay" := 5, "live_ws" := 0, "live" := 0, "poll" := 4, "worker" := 4]

  function SourceRank(source: string, marketOpen: bool): int {
    var table := if marketOpen then RANK_OPEN else RANK_CLOSED;
    var key := Lower(source);
    if key in table then table[key] else 2
  }

  /** A missing or zero price falls back on the other name. */
  function PriceOf(q: Quote): Option<real> {
    if q.price.Some? && q.price.value != 0.0 then q.price else q.ltp
  }

  /** How good each source is; the one in force depends on whether the market is open. */
  type Ranking = string -> int

  function RankingWhen(marketOpen: bool): Ranking {
    source => SourceRank(source, marketOpen)
  }

  /**
   * Only `eod` outranks the live feeds while the market is open. Once it is closed the official
   * close outranks everything and every source that is not itself live outranks the live feeds.
   */
  lemma CloseOutranksLive(source: string)
    ensures var open, closed := RankingWhen(true), RankingWhen(false);
      && (open(source) > open("live_ws") <==> Lower(source) == "eod")
      && closed(source) <= closed("official_eod_close")
      && (closed(source) == closed("official_eod_close") <==> Lower(source) == "official_eod_close")
      && (closed(source) <= closed("live_ws") <==> Lower(source) in {"live_ws", "live"})
  {
    LowerKeeps("live_ws");
    LowerKeeps("official_eod_close");
  }

  lemma LowerKeeps(s: string)
    requires forall i :: 0 <= i < |s| ==> !('A' <= s[i] <= 'Z')
    ensures Lower(s) == s
  {
  }

  lemma OpenLeaders()
    ensures var rank := RankingWhen(true);
      rank("eod") == 6 && rank("live_ws") == rank("live") == rank("historical_replay") == 5
  {
    LowerKeeps("eod");
    LowerKeeps("live_ws");
    LowerKeeps("live");
    LowerKeeps("historical_replay");
  }

  lemma OpenFollowers()
    ensures var rank := RankingWhen(true);
      rank("market_data_worker") == 4 && rank("poll") == rank("worker") == 3
  {
    LowerKeeps("market_data_worker");
    LowerKeeps("poll");
    LowerKeeps("worker");
  }

  lemma OpenRest()
    ensures var rank := RankingWhen(true);
      rank("rest") == 2 && rank("history_snapshot") == rank("frozen") == 1
  {
    LowerKeeps("rest");
    LowerKeeps("history_snapshot");
    LowerKeeps("frozen");
  }

  lemma ClosedLeaders()
    ensures var rank := RankingWhen(false);
      rank("official_eod_close") == 11 && rank("eod") == 10 && rank("frozen") == 9 && rank("history_snapshot") == 8
  {
    LowerKeeps("official_eod_close");
    LowerKeeps("eod");
    LowerKeeps("frozen");
    LowerKeeps("history_snapshot");
  }

  lemma ClosedFollowers()
    ensures var rank := RankingWhen(false);
      rank("historical_replay") == 5 && rank("poll") == rank("worker") == 4 && rank("live") == rank("live_ws") == 0
  {
    LowerKeeps("historical_replay");
    LowerKeeps("poll");
    LowerKeeps("worker");
    LowerKeeps("live");
    LowerKeeps("live_ws");
  }

  /** While the market is open: the sources from best to worst, any other one like `rest`. */
  lemma OpenOrder(other: string)
    ensures var rank := RankingWhen(true);
      && rank("eod") > rank("live_ws") == rank("live") == rank("historical_replay") > rank("market_data_worker")
      && rank("market_data_worker") > rank("poll") == rank("worker") > rank("rest")
      && rank("rest") > rank("history_snapshot") == rank("frozen")
      && (Lower(other) !in RANK_OPEN ==> rank(other) == rank("rest"))
  {
    OpenLeaders();
    OpenFollowers();
    OpenRest();
  }

  /** Once it is closed: the live feeds come last, behind any source that is not listed. */
  lemma ClosedOrder(other: string)
    ensures var rank := RankingWhen(false);
      && rank("official_eod_close") > rank("eod") > rank("frozen") > rank("history_snapshot") > rank("historical_replay")
      && rank("historical_replay") > rank("poll") == rank("worker")
      && (Lower(other) !in RANK_CLOSED ==> rank("worker") > rank(other) > rank("live") == rank("live_ws"))
  {
    ClosedLeaders();
    ClosedFollowers();
  }

  function ShouldAcceptOverwrite(existing: Option<Quote>, incoming: Quote, source: string, rank: Ranking): bool {
    if existing.None? then true
    else
      var e := existing.value;
      if incoming.ts > e.ts + 0.001 then true
      else if incoming.ts < e.ts - 0.001 then false
      else if incoming.sequence > e.sequence then true
      else if incoming.sequence < e.sequence then false
      else
        var incomingRank, heldRank := rank(source), rank(e.source);
        if incomingRank > heldRank then true
        else if incomingRank < heldRank then false
        else
          var price := PriceOf(incoming);
          if price.Some? && price != PriceOf(e) then
            incomingRank >= heldRank
          else false
  }

  // ---------- Whole arrival orders ----------

  /** Whether an arriving quote, stored under its own source, replaces the one held. */
  predicate Replaces(held: Quote, arriving: Quote, rank: Ranking) {
    ShouldAcceptOverwrite(Some(held), arriving, arriving.source, rank)
  }

  function Winner(held: Quote, arriving: Quote, rank: Ranking): Quote {
    if Replaces(held, arriving, rank) then arriving else held
  }

  /** The quote held after the quotes arrive in this order at an empty store. */
  function Settled(arrivals: seq<Quote>, rank: Ranking): (q: Quote)
    requires arrivals != []
    ensures q in arrivals
  {
    var last := |arrivals| - 1;
    if last == 0 then arrivals[0] else Winner(Settled(arrivals[..last], rank), arrivals[last], rank)
  }

  // ---------- Timestamps more than a millisecond apart ----------

  predicate SpacedPair(a: Quote, b: Quote) {
    a.ts == b.ts || a.ts > b.ts + 0.001 || b.ts > a.ts + 0.001
  }

  predicate Spaced(arrivals: seq<Quote>) {
    forall a, b :: a in arrivals && b in arrivals ==> SpacedPair(a, b)
  }

  /** Later time, then higher sequence number, then better source. */
  predicate Above(a: Quote, b: Quote, rank: Ranking) {
    || a.ts > b.ts
    || (a.ts == b.ts && a.sequence > b.sequence)
    || (a.ts == b.ts && a.sequence == b.sequence && rank(a.source) > rank(b.source))
  }

  predicate SameKey(a: Quote, b: Quote, rank: Ranking) {
    && a.ts == b.ts && a.sequence == b.sequence
    && rank(a.source) == rank(b.source)
  }

  predicate Highest(q: Quote, arrivals: seq<Quote>, rank: Ranking) {
    forall a :: a in arrivals ==> !Above(a, q, rank)
  }

  /** The most recent price among the quotes that share a key. */
  function LastPrice(arrivals: seq<Quote>, key: Quote, rank: Ranking): Option<real> {
    if arrivals == [] then None
    else
      var last := |arrivals| - 1;
      if SameKey(arrivals[last], key, rank) && PriceOf(arrivals[last]).Some? then PriceOf(arrivals[last])
      else LastPrice(arrivals[..last], key, rank)
  }

  lemma SpacedPairRule(held: Quote, arriving: Quote, rank: Ranking)
    requires SpacedPair(held, arriving)
    ensures ShouldAcceptOverwrite(None, arriving, arriving.source, rank)
    ensures Replaces(held, arriving, rank) <==>
            || Above(arriving, held, rank)
            || (SameKey(arriving, held, rank) && PriceOf(arriving).Some? && PriceOf(arriving) != PriceOf(held))
  {
  }

  predicate NonZero(price: Option<real>) {
    price.Some? && price.value != 0.0
  }

  /**
   * Between level quotes the price decides: one whose `price` differs replaces the other, `ltp` counts
   * only where `price` is missing or zero, and a quote without either replaces nothing.
   */
  lemma LevelQuotes(held: Quote, arriving: Quote, rank: Ranking)
    requires SameKey(arriving, held, rank)
    ensures NonZero(arriving.price) && NonZero(held.price) ==>
      (Replaces(held, arriving, rank) <==> arriving.price != held.price)
    ensures NonZero(arriving.price) && !NonZero(held.price) ==>
      (Replaces(held, arriving, rank) <==> arriving.price != held.ltp)
    ensures !NonZero(arriving.price) && NonZero(held.price) ==>
      (Replaces(held, arriving, rank) <==> arriving.ltp.Some? && arriving.ltp != held.price)
    ensures !NonZero(arriving.price) && !NonZero(held.price) ==>
      (Replaces(held, arriving, rank) <==> arriving.ltp.Some? && arriving.ltp != held.ltp)
  {
  }

  lemma StaysHighest(before: seq<Quote>, held: Quote, last: Quote, rank: Ranking)
    requires SpacedPair(held, last) && Highest(held, before, rank)
    ensures Highest(Winner(held, last, rank), before + [last], rank)
  {
    SpacedPairRule(held, last, rank);
    var winner := Winner(held, last, rank);
    forall a | a in before + [last] ensures !Above(a, winner, rank) {
      assert a == last || !Above(a, held, rank);
    }
  }

  lemma KeepsLastPrice(before: seq<Quote>, held: Quote, last: Quote, rank: Ranking)
    requires SpacedPair(held, last) && Highest(held, before, rank)
    requires PriceOf(held) == LastPrice(before, held, rank)
    ensures PriceOf(Winner(held, last, rank)) == LastPrice(before + [last], Winner(held, last, rank), rank)
  {
    SpacedPairRule(held, last, rank);
    assert (before + [last])[..|before|] == before;
    if Above(last, held, rank) {
      forall a | a in before ensures !SameKey(a, last, rank) {
        assert !Above(a, held, rank);
      }
      NoPriceYet(before, last, rank);
    } else if SameKey(last, held, rank) {
      SameLastPrice(before, last, held, rank);
    }
  }

  /**
   * When any two times are equal or more than a millisecond apart, whatever order the quotes arrive
   * in, the store ends up with one that none of them is above, at the last price reported with its key.
   */
  lemma {:induction false} SettlesOnHighest(arrivals: seq<Quote>, rank: Ranking)
    requires arrivals != [] && Spaced(arrivals)
    ensures Highest(Settled(arrivals, rank), arrivals, rank)
    ensures PriceOf(Settled(arrivals, rank)) == LastPrice(arrivals, Settled(arrivals, rank), rank)
    decreases |arrivals|
  {
    var n := |arrivals| - 1;
    var last, before := arrivals[n], arrivals[..n];
    assert arrivals == before + [last];
    if n > 0 {
      SettlesOnHighest(before, rank);
      var held := Settled(before, rank);
      assert held in arrivals && last in arrivals;
      StaysHighest(before, held, last, rank);
      KeepsLastPrice(before, held, last, rank);
    } else {
      assert before == [];
    }
  }

  lemma {:induction false} NoPriceYet(arrivals: seq<Quote>, key: Quote, rank: Ranking)
    requires forall a :: a in arrivals ==> !SameKey(a, key, rank)
    ensures LastPrice(arrivals, key, rank) == None
    decreases |arrivals|
  {
    if arrivals != [] {
      var n := |arrivals| - 1;
      assert arrivals[n] in arrivals;
      NoPriceYet(arrivals[..n], key, rank);
    }
  }

  lemma {:induction false} SameLastPrice(arrivals: seq<Quote>, a: Quote, b: Quote, rank: Ranking)
    requires SameKey(a, b, rank)
    ensures LastPrice(arrivals, a, rank) == LastPrice(arrivals, b, rank)
    decreases |arrivals|
  {
    if arrivals != [] {
      SameLastPrice(arrivals[..|arrivals| - 1], a, b, rank);
    }
  }

  /** Two orders of the same spaced quotes end with the same time, sequence number and source rank. */
  lemma ArrivalOrderIsIrrelevant(one: seq<Quote>, other: seq<Quote>, rank: Ranking)
    requires one != [] && Spaced(one) && multiset(one) == multiset(other)
    ensures other != []
    ensures SameKey(Settled(one, rank), Settled(other, rank), rank)
  {
    assert one[0] in multiset(one);
    assert one[0] in other;
    forall q | q in other ensures q in one {
      assert q in multiset(other);
    }
    SettlesOnHighest(one, rank);
    SettlesOnHighest(other, rank);
    var a, b := Settled(one, rank), Settled(other, rank);
    assert a in multiset(one) && a in other;
    assert !Above(a, b, rank) && !Above(b, a, rank);
  }
}
