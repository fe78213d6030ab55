/**
 * SimpleMovingAverageStrategy: the object that owns the price window and the
 * position flag and updates both in place on every tick.
 */
module Strategy {
  import opened Wrappers
  import opened SharedModel
  import opened SmaCrossover
  import IntText

  class SimpleMovingAverageStrategy {
    /** Number of prices the SMA is taken over; at least 1. */
    const window: int
    /** The most recent prices, oldest first. */
    var priceWindow: seq<real>
    /** Whether the previous full-window tick was above the SMA; None until the baseline is set. */
    var wasAboveSma: Option<bool>

    /** Every price processed so far, in arrival order. */
    ghost var history: seq<real>
    /** Every signal returned so far, in order. */
    ghost var emitted: seq<Signal>

    ghost function Current(): State
      reads this
    {
      State(priceWindow, wasAboveSma)
    }

    /**
     * The window never exceeds its capacity, holds the latest prices, the
     * baseline is set exactly when it is full, and the signals returned so
     * far alternate BUY/SELL in agreement with the flag.
     */
    ghost predicate Valid()
      reads this
    {
      Inv(window, Current()) &&
      priceWindow == Latest(history, window) &&
      Alternating(emitted) && AgreesWithLast(emitted, wasAboveSma)
    }

    /** A strategy with an empty window and no baseline. */
    constructor (window: int)
      requires window > 0
      ensures Valid() && this.window == window
      ensures Current() == Initial && history == [] && emitted == []
    {
      this.window := window;
      priceWindow := [];
      wasAboveSma := None;
      history := [];
      emitted := [];
    }

    /** The public constructor: a window of 0 or less is refused with the exception's message. */
    static method Create(window: int) returns (r: Result<SimpleMovingAverageStrategy, string>)
      ensures r.Failure? <==> window <= 0
      ensures r.Failure? ==> r.error == WindowError(window)
      ensures r.Success? ==>
                fresh(r.value) && r.value.Valid() && r.value.window == window &&
                r.value.Current() == Initial && r.value.history == [] && r.value.emitted == []
    {
      var checked := ValidateWindow(window);
      if checked.Failure? {
        return Failure(checked.error);
      }
      var strategy := new SimpleMovingAverageStrategy(window);
      return Success(strategy);
    }

    /** name(): "SMA-" followed by the canonical decimal text of the window, which reads back as the window. */
    function Name(): (r: string)
      ensures |r| > 4 && r[..4] == "SMA-"
      ensures IntText.CanonicalInt(r[4..]) && IntText.ParseInt(r[4..]) == window
    {
      StrategyName(window)
    }

    /** process(tick): slide the window, and once it is full compare the price with the SMA and report a crossing. */
    method Process(tick: Tick, now: Instant) returns (signal: Option<Signal>)
      requires Valid()
      modifies this
      ensures Valid()
      ensures var r := Step(window, old(Current()), tick, now);
                Current() == r.state && signal == r.signal
      ensures history == old(history) + [tick.price]
      ensures emitted == old(emitted) + SignalSeq(signal)
      ensures |priceWindow| == if old(|priceWindow|) < window then old(|priceWindow|) + 1 else window
    {
      ghost var before := Current();
      LatestSlide(history, tick.price, window);
      StepKeepsAlternation(window, before, tick, now, emitted);

      priceWindow := priceWindow + [tick.price];
      if |priceWindow| > window {
        priceWindow := priceWindow[1..];
      }
      history := history + [tick.price];

      if |priceWindow| < window {
        return None;
      }

      var sma := CalculateSma(priceWindow, window);
      var isAboveSma := tick.price > sma;

      signal := None;
      if wasAboveSma.Some? {
        if isAboveSma && !wasAboveSma.value {
          signal := Some(SignalOf(BUY, tick.symbol, tick.price, Name(), now));
        } else if !isAboveSma && wasAboveSma.value {
          signal := Some(SignalOf(SELL, tick.symbol, tick.price, Name(), now));
        }
      }

      wasAboveSma := Some(isAboveSma);
      emitted := emitted + SignalSeq(signal);
    }
  }
}
