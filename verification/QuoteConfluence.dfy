/**
 * The overwrite rule of backend/market/quote_router.py on any timestamps: when does the store end with
 * the same quote, or with the same time, sequence number and rank, whatever the order of arrival?
 */
module QuoteConfluence {
  import opened Prelude
  import opened QuoteRouter

  // ---------- The rule, pair by pair ----------

  /** Times that the rule does not tell apart. */
  predicate Close(a: Quote, b: Quote) {
    b.ts - 0.001 <= a.ts <= b.ts + 0.001
  }

  /** A clearly later time, or at close times a higher sequence number, or then a better source. */
  predicate Better(a: Quote, b: Quote, rank: Ranking) {
    || a.ts > b.ts + 0.001
    || (Close(a, b) && a.sequence > b.sequence)
    || (Close(a, b) && a.sequence == b.sequence && rank(a.source) > rank(b.source))
  }

  /** Neither is better: only the price decides. */
  predicate Level(a: Quote, b: Quote, rank: Ranking) {
    Close(a, b) && a.sequence == b.sequence && rank(a.source) == rank(b.source)
  }

  lemma PairRule(held: Quote, arriving: Quote, rank: Ranking)
    ensures Replaces(held, arriving, rank) <==>
            || Better(arriving, held, rank)
            || (Level(arriving, held, rank) && PriceOf(arriving).Some? && PriceOf(arriving) != PriceOf(held))
    ensures !Better(arriving, held, rank) && !Better(held, arriving, rank) <==> Level(arriving, held, rank)
    ensures !(Better(arriving, held, rank) && Better(held, arriving, rank))
  {
  }

  /** A quote that replaces every other one and that no other one replaces. */
  predicate Dominates(w: Quote, arrivals: seq<Quote>, rank: Ranking) {
    forall q :: q in arrivals && q != w ==> Replaces(q, w, rank) && !Replaces(w, q, rank)
  }

  /** In terms of the fields: better than each other quote, or level with it while only `w` has a price. */
  lemma DominatesExactly(w: Quote, arrivals: seq<Quote>, rank: Ranking)
    ensures Dominates(w, arrivals, rank) <==>
            forall q :: q in arrivals && q != w ==>
              Better(w, q, rank) || (Level(w, q, rank) && PriceOf(w).Some? && PriceOf(q).None?)
  {
    forall q | q in arrivals && q != w
      ensures Replaces(q, w, rank) && !Replaces(w, q, rank) <==>
              Better(w, q, rank) || (Level(w, q, rank) && PriceOf(w).Some? && PriceOf(q).None?)
    {
      PairRule(q, w, rank);
      PairRule(w, q, rank);
    }
  }

  lemma {:induction false} DominantSettles(w: Quote, arrivals: seq<Quote>, rank: Ranking)
    requires w in arrivals && Dominates(w, arrivals, rank)
    ensures Settled(arrivals, rank) == w
    decreases |arrivals|
  {
    var n := |arrivals| - 1;
    var last, before := arrivals[n], arrivals[..n];
    assert arrivals == before + [last];
    if w in before {
      DominantSettles(w, before, rank);
    }
  }

  // ---------- Rearranging arrivals ----------

  function Having(p: Quote -> bool, arrivals: seq<Quote>): seq<Quote> {
    if arrivals == [] then []
    else (if p(arrivals[0]) then [arrivals[0]] else []) + Having(p, arrivals[1..])
  }

  function Is(q: Quote): Quote -> bool {
    (x: Quote) => x == q
  }

  function IsNot(q: Quote): Quote -> bool {
    (x: Quote) => x != q
  }

  function Keyed(w: Quote, rank: Ranking): Quote -> bool {
    (x: Quote) => SameKey(x, w, rank)
  }

  function NotKeyed(w: Quote, rank: Ranking): Quote -> bool {
    (x: Quote) => !SameKey(x, w, rank)
  }

  lemma {:induction false} Partition(p: Quote -> bool, other: Quote -> bool, arrivals: seq<Quote>)
    requires forall x :: other(x) == !p(x)
    ensures multiset(Having(p, arrivals)) + multiset(Having(other, arrivals)) == multiset(arrivals)
  {
    if arrivals != [] {
      var head, tail := arrivals[0], arrivals[1..];
      Partition(p, other, tail);
      assert arrivals == [head] + tail;
    }
  }

  lemma {:induction false} HavingMembers(p: Quote -> bool, arrivals: seq<Quote>)
    ensures forall a :: a in Having(p, arrivals) ==> a in arrivals && p(a)
    ensures forall a :: a in arrivals && p(a) ==> a in Having(p, arrivals)
  {
    if arrivals != [] {
      HavingMembers(p, arrivals[1..]);
    }
  }

  /** The arrivals with all copies of `q` moved to the front, or to the back. */
  lemma Moved(q: Quote, arrivals: seq<Quote>) returns (copies: seq<Quote>, others: seq<Quote>)
    requires q in arrivals
    ensures multiset(copies) + multiset(others) == multiset(arrivals)
    ensures copies != [] && forall c :: c in copies ==> c == q
    ensures forall x :: x in others <==> x in arrivals && x != q
  {
    copies, others := Having(Is(q), arrivals), Having(IsNot(q), arrivals);
    Partition(Is(q), IsNot(q), arrivals);
    HavingMembers(Is(q), arrivals);
    HavingMembers(IsNot(q), arrivals);
    assert q in copies;
  }

  // ---------- Ending on one quote ----------

  /** While only `w` arrives and `w` does not replace `q`, or while only `q` does, `q` stays. */
  lemma {:induction false} Stays(before: seq<Quote>, q: Quote, copies: seq<Quote>, rank: Ranking)
    requires before != [] && Settled(before, rank) == q
    requires forall c :: c in copies ==> c == q || !Replaces(q, c, rank)
    ensures Settled(before + copies, rank) == q
    decreases |copies|
  {
    if copies == [] {
      assert before + copies == before;
    } else {
      var n := |copies| - 1;
      Stays(before, q, copies[..n], rank);
      assert (before + copies)[..|before| + n] == before + copies[..n];
      assert (before + copies)[|before| + n] == copies[n] && copies[n] in copies;
    }
  }

  /** A quote that has been replaced does not come back unless it arrives again. */
  lemma {:induction false} StaysOut(before: seq<Quote>, w: Quote, others: seq<Quote>, rank: Ranking)
    requires before != [] && Settled(before, rank) != w && w !in others
    ensures Settled(before + others, rank) != w
    decreases |others|
  {
    if others == [] {
      assert before + others == before;
    } else {
      var n := |others| - 1;
      StaysOut(before, w, others[..n], rank);
      assert (before + others)[..|before| + n] == before + others[..n];
      assert (before + others)[|before| + n] == others[n] && others[n] in others;
    }
  }

  /** An order in which `w` loses: all copies of one of the two, then all of the other, then the rest. */
  lemma LosingOrder(w: Quote, q: Quote, arrivals: seq<Quote>, rank: Ranking) returns (order: seq<Quote>)
    requires w in arrivals && q in arrivals && q != w
    requires Replaces(w, q, rank) || !Replaces(q, w, rank)
    ensures multiset(order) == multiset(arrivals) && order != []
    ensures Settled(order, rank) != w
  {
    var ws, others := Moved(w, arrivals);
    var qs, rest := Moved(q, others);
    var first := FirstTwo(w, q, ws, qs, rank);
    order := first + rest;
    StaysOut(first, w, rest, rank);
  }

  lemma FirstTwo(w: Quote, q: Quote, ws: seq<Quote>, qs: seq<Quote>, rank: Ranking) returns (first: seq<Quote>)
    requires ws != [] && forall c :: c in ws ==> c == w
    requires qs != [] && forall c :: c in qs ==> c == q
    requires Replaces(w, q, rank) || !Replaces(q, w, rank)
    ensures multiset(first) == multiset(ws) + multiset(qs) && first != []
    ensures Settled(first, rank) == q
  {
    if Replaces(w, q, rank) {
      AllCopies(w, ws, rank);
      Takes(ws, w, q, qs, rank);
      first := ws + qs;
    } else {
      AllCopies(q, qs, rank);
      Stays(qs, q, ws, rank);
      first := qs + ws;
    }
  }

  lemma AllCopies(q: Quote, copies: seq<Quote>, rank: Ranking)
    requires copies != [] && forall c :: c in copies ==> c == q
    ensures Settled(copies, rank) == q
  {
  }

  lemma Takes(before: seq<Quote>, w: Quote, q: Quote, copies: seq<Quote>, rank: Ranking)
    requires before != [] && Settled(before, rank) == w && Replaces(w, q, rank)
    requires copies != [] && forall c :: c in copies ==> c == q
    ensures Settled(before + copies, rank) == q
  {
    var first, more := before + [q], copies[1..];
    assert copies[0] in copies && forall c :: c in more ==> c in copies;
    assert first[..|before|] == before;
    assert before + copies == first + more;
    Stays(first, q, more, rank);
  }

  /** Every arrival order ends with `w` exactly when `w` wins both ways against each other quote. */
  lemma AlwaysSettlesExactly(w: Quote, arrivals: seq<Quote>, rank: Ranking)
    requires w in arrivals
    ensures (forall order: seq<Quote> ::
               order != [] && multiset(order) == multiset(arrivals) ==> Settled(order, rank) == w)
       <==> Dominates(w, arrivals, rank)
  {
    if Dominates(w, arrivals, rank) {
      forall order: seq<Quote> | order != [] && multiset(order) == multiset(arrivals)
        ensures Settled(order, rank) == w
      {
        assert w in multiset(order);
        forall q | q in order ensures q in arrivals {
          assert q in multiset(order);
        }
        DominantSettles(w, order, rank);
      }
    } else {
      var q :| q in arrivals && q != w && !(Replaces(q, w, rank) && !Replaces(w, q, rank));
      var order := LosingOrder(w, q, arrivals, rank);
    }
  }

  // ---------- Ending on one key ----------

  /** Some quote with the key has a price. */
  predicate KeyPriced(w: Quote, arrivals: seq<Quote>, rank: Ranking) {
    exists v :: v in arrivals && SameKey(v, w, rank) && PriceOf(v).Some?
  }

  /** The key is better than every other, or level with it while only the key comes with a price. */
  predicate KeyDominates(w: Quote, arrivals: seq<Quote>, rank: Ranking) {
    forall q :: q in arrivals && !SameKey(q, w, rank) ==> KeyWins(w, q, arrivals, rank)
  }

  predicate KeyWins(w: Quote, q: Quote, arrivals: seq<Quote>, rank: Ranking) {
    Better(w, q, rank) || (Level(w, q, rank) && PriceOf(q).None? && KeyPriced(w, arrivals, rank))
  }

  /** A quote with the key that takes over from any other: one with a price, if there is one. */
  predicate Enters(v: Quote, w: Quote, arrivals: seq<Quote>, rank: Ranking) {
    SameKey(v, w, rank) && (KeyPriced(w, arrivals, rank) ==> PriceOf(v).Some?)
  }

  lemma KeyStays(held: Quote, x: Quote, w: Quote, arrivals: seq<Quote>, rank: Ranking)
    requires KeyDominates(w, arrivals, rank) && x in arrivals && SameKey(held, w, rank)
    ensures SameKey(Winner(held, x, rank), w, rank)
  {
    PairRule(held, x, rank);
  }

  lemma KeyEnters(held: Quote, v: Quote, w: Quote, arrivals: seq<Quote>, rank: Ranking)
    requires KeyDominates(w, arrivals, rank) && held in arrivals && Enters(v, w, arrivals, rank)
    ensures SameKey(Winner(held, v, rank), w, rank)
  {
    PairRule(held, v, rank);
    if !SameKey(held, w, rank) {
      assert KeyWins(w, held, arrivals, rank);
    }
  }

  lemma {:induction false} KeyHolds(before: seq<Quote>, v: Quote, w: Quote, arrivals: seq<Quote>, rank: Ranking)
    requires KeyDominates(w, arrivals, rank) && forall x :: x in before ==> x in arrivals
    requires v in before && Enters(v, w, arrivals, rank)
    ensures SameKey(Settled(before, rank), w, rank)
    decreases |before|
  {
    var n := |before| - 1;
    var front, last := before[..n], before[n];
    assert before == front + [last];
    if n > 0 {
      if v in front {
        KeyHolds(front, v, w, arrivals, rank);
        KeyStays(Settled(front, rank), last, w, arrivals, rank);
      } else {
        KeyEnters(Settled(front, rank), v, w, arrivals, rank);
      }
    }
  }

  lemma {:induction false} KeyStaysOut(before: seq<Quote>, w: Quote, others: seq<Quote>, rank: Ranking)
    requires before != [] && !SameKey(Settled(before, rank), w, rank)
    requires forall x :: x in others ==> !SameKey(x, w, rank)
    ensures !SameKey(Settled(before + others, rank), w, rank)
    decreases |others|
  {
    if others == [] {
      assert before + others == before;
    } else {
      var n := |others| - 1;
      KeyStaysOut(before, w, others[..n], rank);
      assert (before + others)[..|before| + n] == before + others[..n];
      assert (before + others)[|before| + n] == others[n] && others[n] in others;
    }
  }

  /** After quotes that share a key, the last with a price, the store has the key and that price. */
  lemma KeyThenCopies(keyed: seq<Quote>, v: Quote, rank: Ranking)
    requires keyed != [] && keyed[|keyed| - 1] == v
    requires forall x :: x in keyed ==> SameKey(x, v, rank)
    ensures SameKey(Settled(keyed, rank), v, rank)
    ensures PriceOf(v).Some? ==> PriceOf(Settled(keyed, rank)) == PriceOf(v)
  {
    forall a, b | a in keyed && b in keyed ensures SpacedPair(a, b) {
      assert SameKey(a, v, rank) && SameKey(b, v, rank);
    }
    SettlesOnHighest(keyed, rank);
    SameLastPrice(keyed, Settled(keyed, rank), v, rank);
  }

  /** An order that loses the key to `q`: its quotes first, `v` last of them, then `q`, then the rest. */
  lemma KeyOvertaken(w: Quote, v: Quote, q: Quote, arrivals: seq<Quote>, rank: Ranking) returns (order: seq<Quote>)
    requires v in arrivals && SameKey(v, w, rank) && q in arrivals && !SameKey(q, w, rank)
    requires Better(q, w, rank) || (Level(q, w, rank) && PriceOf(v).Some? && PriceOf(q).Some? && PriceOf(q) != PriceOf(v))
    ensures multiset(order) == multiset(arrivals) && order != []
    ensures !SameKey(Settled(order, rank), w, rank)
  {
    var keyed, others := KeySplit(w, arrivals, rank);
    var vs, early := Moved(v, keyed);
    var qs, rest := Moved(q, others);
    var group := early + vs;
    assert group[|group| - 1] == vs[|vs| - 1] && vs[|vs| - 1] in vs;
    KeyThenCopies(group, v, rank);
    PairRule(Settled(group, rank), q, rank);
    Takes(group, Settled(group, rank), q, qs, rank);
    order := group + qs + rest;
    KeyStaysOut(group + qs, w, rest, rank);
  }

  /** An order in which the key never takes over from `q`: `q` first, then the key's quotes, then the rest. */
  lemma KeyKeptOut(w: Quote, q: Quote, arrivals: seq<Quote>, rank: Ranking) returns (order: seq<Quote>)
    requires q in arrivals && !SameKey(q, w, rank) && Level(q, w, rank)
    requires forall v :: v in arrivals && SameKey(v, w, rank) ==> PriceOf(v).None? || PriceOf(v) == PriceOf(q)
    ensures multiset(order) == multiset(arrivals) && order != []
    ensures !SameKey(Settled(order, rank), w, rank)
  {
    var keyed, others := KeySplit(w, arrivals, rank);
    var qs, rest := Moved(q, others);
    AllCopies(q, qs, rank);
    forall v | v in keyed ensures !Replaces(q, v, rank) {
      PairRule(q, v, rank);
    }
    Stays(qs, q, keyed, rank);
    order := qs + keyed + rest;
    KeyStaysOut(qs + keyed, w, rest, rank);
  }

  lemma KeySplit(w: Quote, arrivals: seq<Quote>, rank: Ranking) returns (keyed: seq<Quote>, others: seq<Quote>)
    ensures multiset(keyed) + multiset(others) == multiset(arrivals)
    ensures forall x :: x in keyed <==> x in arrivals && SameKey(x, w, rank)
    ensures forall x :: x in others <==> x in arrivals && !SameKey(x, w, rank)
  {
    keyed, others := Having(Keyed(w, rank), arrivals), Having(NotKeyed(w, rank), arrivals);
    Partition(Keyed(w, rank), NotKeyed(w, rank), arrivals);
    HavingMembers(Keyed(w, rank), arrivals);
    HavingMembers(NotKeyed(w, rank), arrivals);
  }

  lemma KeyLosingOrder(w: Quote, q: Quote, arrivals: seq<Quote>, rank: Ranking) returns (order: seq<Quote>)
    requires w in arrivals && q in arrivals && !SameKey(q, w, rank) && !KeyWins(w, q, arrivals, rank)
    ensures multiset(order) == multiset(arrivals) && order != []
    ensures !SameKey(Settled(order, rank), w, rank)
  {
    PairRule(w, q, rank);
    if Better(q, w, rank) {
      order := KeyOvertaken(w, w, q, arrivals, rank);
    } else if v :| v in arrivals && SameKey(v, w, rank) && PriceOf(v).Some? && PriceOf(v) != PriceOf(q) {
      assert KeyPriced(w, arrivals, rank);
      order := KeyOvertaken(w, v, q, arrivals, rank);
    } else {
      order := KeyKeptOut(w, q, arrivals, rank);
    }
  }

  /**
   * Every arrival order ends with the time, sequence number and source rank of `w` exactly when each
   * quote with others is worse, or is level and without a price while some quote with these has one.
   */
  lemma KeyAlwaysSettlesExactly(w: Quote, arrivals: seq<Quote>, rank: Ranking)
    requires w in arrivals
    ensures (forall order: seq<Quote> ::
               order != [] && multiset(order) == multiset(arrivals) ==> SameKey(Settled(order, rank), w, rank))
       <==> KeyDominates(w, arrivals, rank)
  {
    if KeyDominates(w, arrivals, rank) {
      var v := w;
      if KeyPriced(w, arrivals, rank) {
        v :| v in arrivals && SameKey(v, w, rank) && PriceOf(v).Some?;
      }
      forall order: seq<Quote> | order != [] && multiset(order) == multiset(arrivals)
        ensures SameKey(Settled(order, rank), w, rank)
      {
        assert v in multiset(order);
        forall x | x in order ensures x in arrivals {
          assert x in multiset(order);
        }
        KeyHolds(order, v, w, arrivals, rank);
      }
    } else {
      var q :| q in arrivals && !SameKey(q, w, rank) && !KeyWins(w, q, arrivals, rank);
      var order := KeyLosingOrder(w, q, arrivals, rank);
    }
  }

  // ---------- A circle ----------

  /**
   * Three quotes 0.8 ms apart, later ones with lower sequence numbers: each replaces the one before
   * it in a circle, at whatever time they arrive, so no quote is what every arrival order ends with.
   */
  lemma CloseTimesCycle(t: real, a: Quote, b: Quote, c: Quote, rank: Ranking)
    requires a == Quote(t, 3, "live", Some(1.0), None)
    requires b == Quote(t + 0.0008, 2, "live", Some(2.0), None)
    requires c == Quote(t + 0.0016, 1, "live", Some(3.0), None)
    ensures Replaces(b, a, rank) && Replaces(c, b, rank) && Replaces(a, c, rank)
    ensures forall w :: w in [a, b, c] ==> !Dominates(w, [a, b, c], rank)
    ensures Settled([a, b, c], rank) == c && Settled([c, b, a], rank) == a && Settled([a, c, b], rank) == b
  {
    assert a in [a, b, c] && b in [a, b, c] && c in [a, b, c];
    SettledThree(a, b, c, rank);
    SettledThree(c, b, a, rank);
    SettledThree(a, c, b, rank);
  }

  lemma SettledThree(a: Quote, b: Quote, c: Quote, rank: Ranking)
    ensures Settled([a, b, c], rank) == Winner(Winner(a, b, rank), c, rank)
  {
    assert [a, b, c][..2] == [a, b] && [a, b][..1] == [a];
  }
}
