/**
 * What a composite strategy of backend/engines/signals.py decides, read off its rules: which of them
 * must agree in each mode, and how their confidences add up.
 */
module CompositeMeaning {
  import opened Prelude
  import opened SignalSpec
  import D = SignalDuality

  ghost predicate AllEvaluable(rules: seq<Rule>, m: Market) {
    forall i :: 0 <= i < |rules| && rules[i].Rule? ==> rules[i].leaf.Evaluable(m)
  }

  /** The rules that count. */
  function Counted(rules: seq<Rule>): set<nat> {
    set i: nat | i < |rules| && rules[i].Rule?
  }

  /** The rule counts and its strategy calls for the action. */
  predicate Calls(rule: Rule, m: Market, action: Action)
    requires rule.Rule? ==> rule.leaf.Evaluable(m)
  {
    rule.Rule? && LeafSignal(rule.leaf, m).action == action
  }

  /** The rules that call for an action. */
  ghost function Calling(rules: seq<Rule>, m: Market, action: Action): set<nat>
    requires AllEvaluable(rules, m)
  {
    set i: nat | i < |rules| && Calls(rules[i], m, action)
  }

  /** Confidence of rule i, zero for an entry that does not count. */
  ghost function ConfidenceOf(rules: seq<Rule>, m: Market, i: nat): real
    requires AllEvaluable(rules, m) && i < |rules|
  {
    if rules[i].Rule? then LeafSignal(rules[i].leaf, m).confidence else 0.0
  }

  ghost function TotalConfidence(rules: seq<Rule>, m: Market, n: nat): real
    requires AllEvaluable(rules, m) && n <= |rules|
  {
    if n == 0 then 0.0 else TotalConfidence(rules, m, n - 1) + ConfidenceOf(rules, m, n - 1)
  }

  /** The largest confidence among the rules that call for an action. */
  ghost predicate Strongest(rules: seq<Rule>, m: Market, action: Action, c: real)
    requires AllEvaluable(rules, m)
  {
    && (exists i :: i in Calling(rules, m, action) && ConfidenceOf(rules, m, i) == c)
    && (forall i :: i in Calling(rules, m, action) ==> ConfidenceOf(rules, m, i) <= c)
  }

  /**
   * ALL: the composite buys if and only if some rule counts and every rule that counts buys, and sells
   * likewise; the confidence is their mean and a tenth, at most 0.95.
   */
  lemma UnanimousTrades(rules: seq<Rule>, m: Market)
    requires AllEvaluable(rules, m)
    ensures var s := StrategySignal(Composite(rules, false), m);
      && (s.action == Buy <==> Counted(rules) != {} && Calling(rules, m, Buy) == Counted(rules))
      && (s.action == Sell <==> Counted(rules) != {} && Calling(rules, m, Sell) == Counted(rules))
      && s.confidence == if s.action == Hold then 0.0
                         else Min(0.95, TotalConfidence(rules, m, |rules|) / |Counted(rules)| as real + 0.1)
  {
    var signals := SubSignals(rules, m);
    SignalsCount(rules, m);
    BackingCounts(rules, m, Buy);
    BackingCounts(rules, m, Sell);
    CallingCounts(rules, m, Buy);
    CallingCounts(rules, m, Sell);
    BackingBound(signals, Buy);
    BackingBound(signals, Sell);
    SignalsTotal(rules, m);
    D.BackingSplits(signals);
  }

  /**
   * ANY: the composite buys if and only if some rule buys and none sells, and sells likewise; the
   * confidence is the largest on that side and 0.05 for each further rule on it, at most 0.95.
   */
  lemma AnyTrades(rules: seq<Rule>, m: Market)
    requires AllEvaluable(rules, m)
    ensures var s := StrategySignal(Composite(rules, true), m);
      && (s.action == Buy <==> Calling(rules, m, Buy) != {} && Calling(rules, m, Sell) == {})
      && (s.action == Sell <==> Calling(rules, m, Sell) != {} && Calling(rules, m, Buy) == {})
      && if s.action == Hold then s.confidence == 0.0
         else exists top :: Strongest(rules, m, s.action, top)
                            && s.confidence == Min(0.95, top + 0.05 * (|Calling(rules, m, s.action)| - 1) as real)
  {
    BackingCounts(rules, m, Buy);
    BackingCounts(rules, m, Sell);
    var s := StrategySignal(Composite(rules, true), m);
    if s.action != Hold {
      StrongestIsMax(rules, m, s.action);
    }
  }

  // ---------- The list of signals and the rules ----------

  lemma FrontEvaluable(rules: seq<Rule>, m: Market)
    requires rules != [] && AllEvaluable(rules, m)
    ensures AllEvaluable(rules[..|rules| - 1], m)
  {
  }

  lemma {:induction false} SignalsCount(rules: seq<Rule>, m: Market)
    requires AllEvaluable(rules, m)
    ensures |SubSignals(rules, m)| == |Counted(rules)|
  {
    if rules != [] {
      var n := |rules| - 1;
      FrontEvaluable(rules, m);
      SignalsCount(rules[..n], m);
      assert Counted(rules) == Counted(rules[..n]) + if rules[n].Rule? then {n} else {};
    }
  }

  lemma {:induction false} BackingCounts(rules: seq<Rule>, m: Market, action: Action)
    requires AllEvaluable(rules, m)
    ensures |Backing(SubSignals(rules, m), action)| == |Calling(rules, m, action)|
  {
    if rules != [] {
      var n := |rules| - 1;
      FrontEvaluable(rules, m);
      BackingCounts(rules[..n], m, action);
      CallingStep(rules, m, action);
      BackingStep(rules, m, action);
    }
  }

  lemma InCalling(rules: seq<Rule>, m: Market, action: Action, i: nat)
    requires AllEvaluable(rules, m)
    ensures i in Calling(rules, m, action) <==> i < |rules| && Calls(rules[i], m, action)
  {
  }

  lemma CallingStep(rules: seq<Rule>, m: Market, action: Action)
    requires rules != [] && AllEvaluable(rules, m)
    ensures AllEvaluable(rules[..|rules| - 1], m)
    ensures var last, before := rules[|rules| - 1], Calling(rules[..|rules| - 1], m, action);
      |Calling(rules, m, action)| == |before| + if Calls(last, m, action) then 1 else 0
  {
    var n := |rules| - 1;
    FrontEvaluable(rules, m);
    var before := Calling(rules[..n], m, action);
    var after := before + if Calls(rules[n], m, action) then {n} else {};
    forall i: nat ensures i in Calling(rules, m, action) <==> i in after {
      InCalling(rules, m, action, i);
      InCalling(rules[..n], m, action, i);
    }
    assert Calling(rules, m, action) == after;
    assert n !in before;
  }

  /** The last rule adds its confidence to the side it calls for. */
  lemma BackingStep(rules: seq<Rule>, m: Market, action: Action)
    requires rules != [] && AllEvaluable(rules, m)
    ensures AllEvaluable(rules[..|rules| - 1], m)
    ensures var last, before := rules[|rules| - 1], Backing(SubSignals(rules[..|rules| - 1], m), action);
      Backing(SubSignals(rules, m), action) ==
        if Calls(last, m, action) then before + [LeafSignal(last.leaf, m).confidence]
        else before
  {
    FrontEvaluable(rules, m);
    var front := SubSignals(rules[..|rules| - 1], m);
    if rules[|rules| - 1].Rule? {
      var all := front + [LeafSignal(rules[|rules| - 1].leaf, m)];
      assert all[..|all| - 1] == front;
    }
  }

  lemma CallingCounts(rules: seq<Rule>, m: Market, action: Action)
    requires AllEvaluable(rules, m)
    ensures |Calling(rules, m, action)| == |Counted(rules)| <==> Calling(rules, m, action) == Counted(rules)
  {
    assert Calling(rules, m, action) <= Counted(rules);
    if Calling(rules, m, action) != Counted(rules) {
      SmallerSubset(Calling(rules, m, action), Counted(rules));
    }
  }

  lemma SmallerSubset(a: set<nat>, b: set<nat>)
    requires a <= b && a != b
    ensures |a| < |b|
  {
    assert b == a + (b - a);
    assert b - a != {};
  }

  lemma {:induction false} BackingBound(signals: seq<Signal>, action: Action)
    ensures |Backing(signals, action)| <= |signals|
    ensures |Backing(signals, action)| == |signals| ==> Sum(Backing(signals, action)) == Sum(Confidences(signals))
  {
    if signals != [] {
      var n := |signals| - 1;
      BackingBound(signals[..n], action);
      assert Confidences(signals)[..n] == Confidences(signals[..n]);
      if signals[n].action == action {
        var rest := Backing(signals[..n], action);
        assert (rest + [signals[n].confidence])[..|rest|] == rest;
      }
    }
  }

  function Confidences(signals: seq<Signal>): (cs: seq<real>)
    ensures |cs| == |signals|
  {
    seq(|signals|, i requires 0 <= i < |signals| => signals[i].confidence)
  }

  lemma {:induction false} SignalsTotal(rules: seq<Rule>, m: Market)
    requires AllEvaluable(rules, m)
    ensures Sum(Confidences(SubSignals(rules, m))) == TotalConfidence(rules, m, |rules|)
  {
    if rules != [] {
      var n := |rules| - 1;
      FrontEvaluable(rules, m);
      SignalsTotal(rules[..n], m);
      TotalOfFront(rules, m, n);
      var front := SubSignals(rules[..n], m);
      if rules[n].Rule? {
        var all := Confidences(SubSignals(rules, m));
        assert all[..|front|] == Confidences(front);
      }
    }
  }

  lemma {:induction false} TotalOfFront(rules: seq<Rule>, m: Market, k: nat)
    requires rules != [] && AllEvaluable(rules, m) && k <= |rules| - 1
    ensures AllEvaluable(rules[..|rules| - 1], m)
    ensures TotalConfidence(rules[..|rules| - 1], m, k) == TotalConfidence(rules, m, k)
  {
    FrontEvaluable(rules, m);
    if k > 0 {
      TotalOfFront(rules, m, k - 1);
    }
  }

  /** The confidences on a side are those of the rules that call for it. */
  lemma {:induction false} BackingMembers(rules: seq<Rule>, m: Market, action: Action)
    requires AllEvaluable(rules, m)
    ensures forall i :: i in Calling(rules, m, action) ==> ConfidenceOf(rules, m, i) in Backing(SubSignals(rules, m), action)
    ensures forall c :: c in Backing(SubSignals(rules, m), action) ==>
      exists i :: i in Calling(rules, m, action) && ConfidenceOf(rules, m, i) == c
  {
    if rules != [] {
      var n := |rules| - 1;
      var front := rules[..n];
      BackingStep(rules, m, action);
      BackingMembers(front, m, action);
      forall i | i in Calling(rules, m, action) ensures ConfidenceOf(rules, m, i) in Backing(SubSignals(rules, m), action) {
        if i < n {
          assert i in Calling(front, m, action) && ConfidenceOf(front, m, i) == ConfidenceOf(rules, m, i);
        }
      }
      forall c | c in Backing(SubSignals(rules, m), action)
        ensures exists i :: i in Calling(rules, m, action) && ConfidenceOf(rules, m, i) == c
      {
        if c in Backing(SubSignals(front, m), action) {
          var i :| i in Calling(front, m, action) && ConfidenceOf(front, m, i) == c;
          assert i in Calling(rules, m, action) && ConfidenceOf(rules, m, i) == c;
        } else {
          assert n in Calling(rules, m, action) && ConfidenceOf(rules, m, n) == c;
        }
      }
    }
  }

  lemma StrongestIsMax(rules: seq<Rule>, m: Market, action: Action)
    requires AllEvaluable(rules, m) && Backing(SubSignals(rules, m), action) != []
    ensures Strongest(rules, m, action, MaxOf(Backing(SubSignals(rules, m), action)))
  {
    var side := Backing(SubSignals(rules, m), action);
    BackingMembers(rules, m, action);
    MaxOfIsLargest(side);
    forall i | i in Calling(rules, m, action) ensures ConfidenceOf(rules, m, i) <= MaxOf(side) {
      var k :| 0 <= k < |side| && side[k] == ConfidenceOf(rules, m, i);
    }
  }
}
