/**
 * The simple-moving-average crossover rule as a pure state transition: the
 * bounded window of recent prices, the position of the last price relative to
 * the average, and the signal each tick produces.
 */
module SmaCrossover {
  import opened Wrappers
  import opened SharedModel
  import opened IntText
  import opened Decimal

  /** The strategy's mutable state: the price window and whether the last price was above the SMA (None: no baseline yet). */
  datatype State = State(prices: seq<real>, wasAboveSma: Option<bool>)

  /** What one processed tick yields: the next state and the optional signal. */
  datatype StepResult = StepResult(state: State, signal: Option<Signal>)

  /** What a sequence of processed ticks yields: the final state and the signals, in emission order. */
  datatype RunResult = RunResult(state: State, signals: seq<Signal>)

  const Initial: State := State([], None)

  /** The text of the exception thrown for a window that is not positive. */
  function WindowError(window: int): string
  {
    "SMA window must be > 0, got: " + IntToString(window)
  }

  /** The constructor's argument check: a window of 0 or less is refused with an error. */
  function ValidateWindow(window: int): (r: Result<nat, string>)
    ensures r.Success? <==> window > 0
    ensures r.Success? ==> r.value == window && r.value >= 1
    ensures r.Failure? ==> r.error == WindowError(window)
  {
    if window <= 0 then Failure(WindowError(window)) else Success(window)
  }

  /** The strategy's name, "SMA-" followed by the window size. */
  function StrategyName(window: int): (r: string)
    ensures |r| > 4 && r[..4] == "SMA-"
    ensures CanonicalInt(r[4..]) && ParseInt(r[4..]) == window
  {
    var r := "SMA-" + IntToString(window);
    assert r[4..] == IntToString(window);
    IntToStringRoundTrip(window);
    r
  }

  /** Two strategies with different windows never share a name. */
  lemma StrategyNameInjective(a: int, b: int)
    requires StrategyName(a) == StrategyName(b)
    ensures a == b
  {
    assert StrategyName(a)[4..] == StrategyName(b)[4..];
  }

  /** Append the newest price; if that overfills the window, drop the oldest. */
  function Slide(prices: seq<real>, price: real, window: int): (r: seq<real>)
    requires window >= 1
    ensures |prices| <= window ==> |r| == if |prices| < window then |prices| + 1 else window
    ensures |r| > 0 && r[|r| - 1] == price
    ensures |prices| < window ==> r == prices + [price]
    ensures |prices| == window ==> r == prices[1..] + [price]
  {
    var grown := prices + [price];
    if |grown| > window then grown[1..] else grown
  }

  /** The last n elements of s (all of s when it is shorter). */
  function Latest(s: seq<real>, n: nat): (r: seq<real>)
    ensures |r| == if |s| < n then |s| else n
  {
    if |s| <= n then s else s[|s| - n..]
  }

  /** calculateSma: the window's sum divided by the window size, rounded HALF_UP to FractionDigits places. */
  function CalculateSma(prices: seq<real>, window: int): (r: real)
    requires window >= 1
    ensures OnGrid(r)
    ensures -0.5 <= (r - Sum(prices) / window as real) * Scale <= 0.5
    ensures (r - Sum(prices) / window as real) * Scale == 0.5 ==> Sum(prices) > 0.0
    ensures (r - Sum(prices) / window as real) * Scale == -0.5 ==> Sum(prices) < 0.0
  {
    RoundHalfUp(Sum(prices) / window as real)
  }

  /** The strategy is internally consistent: the window never overflows and a baseline exists exactly when it is full. */
  predicate Inv(window: int, s: State)
  {
    window >= 1 && |s.prices| <= window && (s.wasAboveSma.Some? <==> |s.prices| == window)
  }

  /** process(tick), with the clock reading for the signal's timestamp passed in as `now`. */
  function Step(window: int, s: State, tick: Tick, now: Instant): (r: StepResult)
    requires window >= 1
    ensures r.state.prices == Slide(s.prices, tick.price, window)
    ensures |r.state.prices| < window ==> r.signal.None? && r.state.wasAboveSma == s.wasAboveSma
    ensures |r.state.prices| >= window ==>
              r.state.wasAboveSma == Some(tick.price > CalculateSma(r.state.prices, window))
    ensures r.signal.Some? && r.signal.value.kind == BUY <==>
              |r.state.prices| >= window && s.wasAboveSma == Some(false) && r.state.wasAboveSma == Some(true)
    ensures r.signal.Some? && r.signal.value.kind == SELL <==>
              |r.state.prices| >= window && s.wasAboveSma == Some(true) && r.state.wasAboveSma == Some(false)
    ensures r.signal.Some? ==> r.signal.value.kind != HOLD
    ensures r.signal.Some? ==>
              r.signal.value.symbol == tick.symbol && r.signal.value.price == tick.price &&
              r.signal.value.strategy == StrategyName(window) && r.signal.value.timestamp == now
    ensures Inv(window, s) ==> Inv(window, r.state)
  {
    var prices := Slide(s.prices, tick.price, window);
    if |prices| < window then
      StepResult(State(prices, s.wasAboveSma), None)
    else
      var isAboveSma := tick.price > CalculateSma(prices, window);
      var signal :=
        if s.wasAboveSma == Some(false) && isAboveSma then
          Some(SignalOf(BUY, tick.symbol, tick.price, StrategyName(window), now))
        else if s.wasAboveSma == Some(true) && !isAboveSma then
          Some(SignalOf(SELL, tick.symbol, tick.price, StrategyName(window), now))
        else None;
      StepResult(State(prices, Some(isAboveSma)), signal)
  }

  function SignalSeq(o: Option<Signal>): seq<Signal>
  {
    if o.Some? then [o.value] else []
  }

  /** The prices of the ticks, in arrival order. */
  function Prices(ticks: seq<Tick>): (r: seq<real>)
    ensures |r| == |ticks| && forall i :: 0 <= i < |ticks| ==> r[i] == ticks[i].price
  {
    seq(|ticks|, i requires 0 <= i < |ticks| => ticks[i].price)
  }

  /** A fresh strategy fed the ticks in order, the i-th one processed at clock[i]. */
  function Run(window: int, ticks: seq<Tick>, clock: seq<Instant>): RunResult
    requires window >= 1 && |clock| == |ticks|
    decreases |ticks|
  {
    if ticks == [] then RunResult(Initial, [])
    else
      var before := Run(window, ticks[..|ticks| - 1], clock[..|clock| - 1]);
      var step := Step(window, before.state, ticks[|ticks| - 1], clock[|clock| - 1]);
      RunResult(step.state, before.signals + SignalSeq(step.signal))
  }

  /** Every signal is a BUY or a SELL, and no two consecutive signals have the same type. */
  predicate Alternating(signals: seq<Signal>)
  {
    (forall i :: 0 <= i < |signals| ==> signals[i].kind != HOLD) &&
    (forall i :: 0 < i < |signals| ==> signals[i].kind != signals[i - 1].kind)
  }

  /** The position flag agrees with the last signal: above after a BUY, not above after a SELL. */
  predicate AgreesWithLast(signals: seq<Signal>, wasAboveSma: Option<bool>)
  {
    signals != [] ==> wasAboveSma == Some(signals[|signals| - 1].kind == BUY)
  }

  /** Processing one more tick keeps the emitted signals alternating and in agreement with the flag. */
  lemma StepKeepsAlternation(window: int, s: State, tick: Tick, now: Instant, signals: seq<Signal>)
    requires Inv(window, s) && Alternating(signals) && AgreesWithLast(signals, s.wasAboveSma)
    ensures var r := Step(window, s, tick, now);
              Alternating(signals + SignalSeq(r.signal)) &&
              AgreesWithLast(signals + SignalSeq(r.signal), r.state.wasAboveSma)
  {
    var r := Step(window, s, tick, now);
    var after := signals + SignalSeq(r.signal);
    if r.signal.Some? {
      assert after == signals + [r.signal.value];
      if signals != [] {
        var last := signals[|signals| - 1];
        assert last.kind != HOLD;
        assert r.signal.value.kind == BUY ==> s.wasAboveSma == Some(false) && last.kind != BUY;
        assert r.signal.value.kind != last.kind;
      }
    } else {
      assert after == signals;
    }
  }

  /** Appending a price to the history slides the window of its latest prices. */
  lemma LatestSlide(history: seq<real>, price: real, window: int)
    requires window >= 1
    ensures Latest(history + [price], window) == Slide(Latest(history, window), price, window)
  {
    var h := history + [price];
    if |history| >= window {
      var k := |history| - window;
      assert h[k + 1..] == history[k..][1..] + [price];
    }
  }

  /** After any sequence of ticks the strategy is consistent and the signals it emitted alternate. */
  lemma {:induction false} RunInvariant(window: int, ticks: seq<Tick>, clock: seq<Instant>)
    requires window >= 1 && |clock| == |ticks|
    ensures var r := Run(window, ticks, clock);
              Inv(window, r.state) && Alternating(r.signals) && AgreesWithLast(r.signals, r.state.wasAboveSma)
    decreases |ticks|
  {
    if ticks != [] {
      var init, initClock := ticks[..|ticks| - 1], clock[..|clock| - 1];
      RunInvariant(window, init, initClock);
      var before := Run(window, init, initClock);
      StepKeepsAlternation(window, before.state, ticks[|ticks| - 1], clock[|clock| - 1], before.signals);
    }
  }

  lemma PricesSnoc(ticks: seq<Tick>)
    requires ticks != []
    ensures Prices(ticks) == Prices(ticks[..|ticks| - 1]) + [ticks[|ticks| - 1].price]
  {
  }

  /** The last tick of a run slides its price into the window left by the earlier ticks. */
  lemma RunLastPrices(window: int, ticks: seq<Tick>, clock: seq<Instant>)
    requires window >= 1 && |clock| == |ticks| && ticks != []
    ensures Run(window, ticks, clock).state.prices ==
              Slide(Run(window, ticks[..|ticks| - 1], clock[..|clock| - 1]).state.prices, ticks[|ticks| - 1].price, window)
  {
  }

  /** The window always holds the most recent prices, oldest first. */
  lemma {:induction false} RunWindowIsLatest(window: int, ticks: seq<Tick>, clock: seq<Instant>)
    requires window >= 1 && |clock| == |ticks|
    ensures Run(window, ticks, clock).state.prices == Latest(Prices(ticks), window)
    decreases |ticks|
  {
    if ticks != [] {
      var init, initClock := ticks[..|ticks| - 1], clock[..|clock| - 1];
      var tick := ticks[|ticks| - 1];
      RunWindowIsLatest(window, init, initClock);
      RunLastPrices(window, ticks, clock);
      PricesSnoc(ticks);
      LatestSlide(Prices(init), tick.price, window);
    }
  }

  /** No signal is emitted while at most `window` ticks have been processed: the first full window only sets the baseline. */
  lemma {:induction false} RunQuietUntilFull(window: int, ticks: seq<Tick>, clock: seq<Instant>)
    requires window >= 1 && |clock| == |ticks| && |ticks| <= window
    ensures Run(window, ticks, clock).signals == []
    ensures Run(window, ticks, clock).state.wasAboveSma.Some? <==> |ticks| == window
    decreases |ticks|
  {
    if ticks != [] {
      var init, initClock := ticks[..|ticks| - 1], clock[..|clock| - 1];
      RunQuietUntilFull(window, init, initClock);
      var before := Run(window, init, initClock);
      var step := Step(window, before.state, ticks[|ticks| - 1], clock[|clock| - 1]);
      assert Run(window, ticks, clock) == RunResult(step.state, before.signals + SignalSeq(step.signal));
      RunInvariant(window, init, initClock);
      RunWindowIsLatest(window, init, initClock);
      assert |before.state.prices| == |init|;
    }
  }

  /** calculateSma on the window [10, 20, 30] of size 3 is exactly 20. */
  lemma SmaExample()
    ensures CalculateSma([10.0, 20.0, 30.0], 3) == 20.0
  {
    assert Sum([10.0, 20.0, 30.0]) == 60.0 by {
      assert [10.0, 20.0, 30.0][..2] == [10.0, 20.0];
      assert [10.0, 20.0][..1] == [10.0];
    }
    RoundHalfUpOnGrid(20.0);
  }

  lemma MeanWithin(sum: real, n: real, lo: real, hi: real)
    requires n > 0.0 && n * lo <= sum <= n * hi
    ensures lo <= sum / n <= hi
  {
    var mean := sum / n;
    assert mean * n == sum;
    if mean < lo {
      assert false;
    }
    if hi < mean {
      assert false;
    }
  }

  /** For prices with at most FractionDigits fractional digits, the SMA of a full window lies between its least and greatest price. */
  lemma SmaWithinRange(prices: seq<real>, window: int, lo: real, hi: real)
    requires window >= 1 && |prices| == window
    requires forall i :: 0 <= i < |prices| ==> lo <= prices[i] <= hi
    requires OnGrid(lo) && OnGrid(hi)
    ensures lo <= CalculateSma(prices, window) <= hi
  {
    var n := window as real;
    SumBounds(prices, lo, hi);
    var mean := Sum(prices) / n;
    MeanWithin(Sum(prices), n, lo, hi);
    assert CalculateSma(prices, window) == RoundHalfUp(mean);
    RoundHalfUpMonotone(lo, mean);
    RoundHalfUpMonotone(mean, hi);
    RoundHalfUpOnGrid(lo);
    RoundHalfUpOnGrid(hi);
  }

  /** A full window of one repeated price has that price as its SMA, so the price is not above it. */
  lemma SteadyWindowNotAbove(prices: seq<real>, window: int, p: real)
    requires window >= 1 && |prices| == window && OnGrid(p)
    requires forall i :: 0 <= i < |prices| ==> prices[i] == p
    ensures CalculateSma(prices, window) == p
    ensures !(p > CalculateSma(prices, window))
  {
    SmaWithinRange(prices, window, p, p);
  }

  /**
   * A first full window of ticks at one steady price emits nothing and sets the
   * baseline to "not above": the price equals its own SMA.
   */
  lemma {:induction false} SteadyPriceBaseline(window: int, ticks: seq<Tick>, clock: seq<Instant>, p: real)
    requires window >= 1 && |clock| == |ticks| == window && OnGrid(p)
    requires forall i :: 0 <= i < |ticks| ==> ticks[i].price == p
    ensures var r := Run(window, ticks, clock);
            r.signals == [] && r.state.wasAboveSma == Some(false) &&
            r.state.prices == Prices(ticks)
  {
    RunQuietUntilFull(window, ticks, clock);
    RunWindowIsLatest(window, ticks, clock);
    var r := Run(window, ticks, clock);
    SteadyWindowNotAbove(r.state.prices, window, p);
    var init, initClock := ticks[..window - 1], clock[..window - 1];
    var before := Run(window, init, initClock);
    RunQuietUntilFull(window, init, initClock);
    assert r.state == Step(window, before.state, ticks[window - 1], clock[window - 1]).state;
  }

  lemma FiveSteadyPrices(ticks: seq<Tick>)
    requires |ticks| == 5 && forall i :: 0 <= i < 5 ==> ticks[i].price == 100.0
    ensures Prices(ticks) == [100.0, 100.0, 100.0, 100.0, 100.0]
  {
    var p := Prices(ticks);
    assert p == [p[0], p[1], p[2], p[3], p[4]];
  }

  /** A run ends with the step of its last tick from the state the earlier ticks left. */
  lemma RunSnoc(window: int, ticks: seq<Tick>, clock: seq<Instant>)
    requires window >= 1 && |clock| == |ticks| && ticks != []
    ensures var before := Run(window, ticks[..|ticks| - 1], clock[..|clock| - 1]);
            var step := Step(window, before.state, ticks[|ticks| - 1], clock[|clock| - 1]);
            Run(window, ticks, clock) == RunResult(step.state, before.signals + SignalSeq(step.signal))
  {
  }

  /** From a full window of 100s with the flag "not above", a tick at 101 emits a BUY. */
  lemma CrossingStep(t: Tick, now: Instant)
    requires t.price == 101.0
    ensures Step(5, State([100.0, 100.0, 100.0, 100.0, 100.0], Some(false)), t, now) ==
              StepResult(State([100.0, 100.0, 100.0, 100.0, 101.0], Some(true)),
                         Some(Signal(BUY, t.symbol, 101.0, StrategyName(5), now)))
  {
    var window := [100.0, 100.0, 100.0, 100.0, 101.0];
    assert Slide([100.0, 100.0, 100.0, 100.0, 100.0], 101.0, 5) == window;
    assert Sum(window) == 501.0 by {
      assert Sum([100.0]) == 100.0 by { assert [100.0][..0] == []; }
      assert Sum([100.0, 100.0]) == 200.0 by { assert [100.0, 100.0][..1] == [100.0]; }
      assert Sum([100.0, 100.0, 100.0]) == 300.0 by {
        assert [100.0, 100.0, 100.0][..2] == [100.0, 100.0];
      }
      assert Sum([100.0, 100.0, 100.0, 100.0]) == 400.0 by {
        assert [100.0, 100.0, 100.0, 100.0][..3] == [100.0, 100.0, 100.0];
      }
      assert window[..4] == [100.0, 100.0, 100.0, 100.0];
    }
    assert OnGrid(100.2);
    RoundHalfUpOnGrid(100.2);
    assert CalculateSma(window, 5) == 100.2;
  }

  /**
   * With window 5: five ticks at 100 set the baseline "not above" and emit
   * nothing; a sixth tick at 101 meets the SMA 100.2 of [100, 100, 100, 100, 101]
   * from below and emits exactly one BUY.
   */
  lemma ScenarioCrossing(steady: seq<Tick>, u: Tick, clock: seq<Instant>)
    requires |steady| == 5 && forall i :: 0 <= i < 5 ==> steady[i].price == 100.0
    requires u.price == 101.0 && |clock| == 6
    ensures var r := Run(5, steady + [u], clock);
            r.state == State([100.0, 100.0, 100.0, 100.0, 101.0], Some(true)) &&
            r.signals == [Signal(BUY, u.symbol, 101.0, StrategyName(5), clock[5])]
  {
    var ticks := steady + [u];
    assert ticks[..5] == steady;
    SteadyPriceBaseline(5, steady, clock[..5], 100.0);
    FiveSteadyPrices(steady);
    RunSnoc(5, ticks, clock);
    CrossingStep(u, clock[5]);
  }

  /**
   * A steady price with more than 10 fractional digits can be above its own SMA:
   * with window 1, the price 0.00000000004 has SMA 0 and sets the baseline "above".
   */
  lemma OffGridSteadyPriceAbove(t: Tick, now: Instant)
    requires t.price == 0.00000000004
    ensures CalculateSma([t.price], 1) == 0.0
    ensures Step(1, Initial, t, now).state.wasAboveSma == Some(true)
  {
    assert [t.price][..0] == [];
    assert Sum([t.price]) == 0.00000000004;
    assert NearestUnits(0.00000000004 * Scale) == 0;
  }
}
