# SMA crossover strategy — a Dafny model

This project models the trading-signal core of the strategy engine: the
`SimpleMovingAverageStrategy`. The strategy keeps a bounded FIFO window of the
last N tick prices and a three-valued position flag (unknown / above / not
above the simple moving average). For each tick it does four things:

1. It slides the window.
2. Once the window is full, it compares the tick's price with the window mean.
   The mean is rounded HALF_UP to 10 fractional digits, and the comparison is strict.
3. It emits a BUY when the price crosses from not-above to above, and a SELL on the
   opposite crossing.
4. It records the new position.

Layout:

- `wrappers.dfy` (`Wrappers`): `Option` for Java's `Optional` and `Result` for a constructor that may throw.
- `shared_model.dfy` (`SharedModel`): the `Tick` and `Signal` records and `SignalType`. `Instant` is opaque.
- `int_text.dfy` (`IntText`): `Integer.toString` as digit text, with a parser that reads it back.
- `decimal.dfy` (`Decimal`): exact `BigDecimal` sums and `divide(…, 10, HALF_UP)`.
  Prices are exact `real` values. `compareTo` ignores scale, so comparison is numeric.
- `sma_crossover.dfy` (`SmaCrossover`): the strategy as a pure transition `Step` on a `State`.
  `Run` feeds a fresh strategy a sequence of ticks, and the lemmas about runs live here too.
- `sma_strategy.dfy` (`Strategy`): the class `SimpleMovingAverageStrategy`. Its `Process`
  method updates `priceWindow` and `wasAboveSma` in place, as the Java code does.
  Its postcondition ties the new state and the returned signal to `Step`. Two ghost
  fields, the price history and the signals emitted so far, let `Valid()` state three
  things: the window holds the latest prices, the baseline is set exactly when the
  window is full, and the signals alternate.

The strategy keeps one window for all symbols: updating state never reads
`tick.symbol()`, so ticks of different symbols share one window. The model
does the same. The clock read inside `Signal.of` becomes a `now`
parameter.

## Model

| member | source | states |
|---|---|---|
| `SmaCrossover.ValidateWindow` | strategy-engine/src/main/java/com/algotrader/strategy/impl/SimpleMovingAverageStrategy.java:41-45 | a window is accepted iff it is > 0, and then it is kept as is (so it is >= 1); otherwise the failure carries the exception message "SMA window must be > 0, got: " followed by the window |
| `Strategy.SimpleMovingAverageStrategy.Create` | strategy-engine/src/main/java/com/algotrader/strategy/impl/SimpleMovingAverageStrategy.java:41-46 | construction fails with that message iff window <= 0; on success, a fresh valid strategy with that window, an empty price window and no baseline |
| `Strategy.SimpleMovingAverageStrategy.constructor` | strategy-engine/src/main/java/com/algotrader/strategy/impl/SimpleMovingAverageStrategy.java:28-46 | a positive window gives an empty window, a null flag and the class invariant |
| `IntText.IntToString` | strategy-engine/src/main/java/com/algotrader/strategy/impl/SimpleMovingAverageStrategy.java:88 | the decimal text of an int is in canonical form: digits with no leading zero, preceded by '-' exactly when the int is negative |
| `IntText.IntToStringRoundTrip` | strategy-engine/src/main/java/com/algotrader/strategy/impl/SimpleMovingAverageStrategy.java:88 | parsing the printed text of any int gives that int back |
| `SmaCrossover.StrategyName` | strategy-engine/src/main/java/com/algotrader/strategy/impl/SimpleMovingAverageStrategy.java:86-89 | the name is "SMA-" followed by the canonical decimal text of the window, which parses back to the window size |
| `Strategy.SimpleMovingAverageStrategy.Name` | strategy-engine/src/main/java/com/algotrader/strategy/impl/SimpleMovingAverageStrategy.java:86-89 | the strategy object's name is "SMA-" followed by the canonical decimal text of its own window, which reads back as that window |
| `SmaCrossover.StrategyNameInjective` | strategy-engine/src/main/java/com/algotrader/strategy/impl/SimpleMovingAverageStrategy.java:86-89 | strategies with different windows have different names |
| `Decimal.RoundHalfUp` | strategy-engine/src/main/java/com/algotrader/strategy/impl/SimpleMovingAverageStrategy.java:94 | the result has at most 10 fractional digits and is within half a unit of the last place from the exact quotient; on a tie it lies farther from zero |
| `Decimal.ScaleIsPow10` | strategy-engine/src/main/java/com/algotrader/strategy/impl/SimpleMovingAverageStrategy.java:94 | the rounding grid is 10^10, i.e. the scale of 10 fractional digits passed to `divide` |
| `Decimal.RoundHalfUpUnique` | strategy-engine/src/main/java/com/algotrader/strategy/impl/SimpleMovingAverageStrategy.java:94 | those three properties determine the rounded value uniquely, so they are a complete specification of HALF_UP at scale 10 |
| `Decimal.RoundHalfUpOnGrid` | strategy-engine/src/main/java/com/algotrader/strategy/impl/SimpleMovingAverageStrategy.java:94 | a quotient that already has at most 10 fractional digits is returned exactly |
| `Decimal.RoundHalfUpMonotone` | strategy-engine/src/main/java/com/algotrader/strategy/impl/SimpleMovingAverageStrategy.java:94 | rounding preserves the order of its arguments |
| `Decimal.Sum` | strategy-engine/src/main/java/com/algotrader/strategy/impl/SimpleMovingAverageStrategy.java:92-93 | the reduction starts from zero, so an empty window sums to 0 |
| `Decimal.SumFromFront` | strategy-engine/src/main/java/com/algotrader/strategy/impl/SimpleMovingAverageStrategy.java:92-93 | adding the first price to the sum of the rest gives the same sum as the left-to-right reduction: the order of the exact additions does not matter |
| `Decimal.SumBounds` | strategy-engine/src/main/java/com/algotrader/strategy/impl/SimpleMovingAverageStrategy.java:92-93 | the sum of n prices that all lie in [lo, hi] lies in [n·lo, n·hi] |
| `SmaCrossover.CalculateSma` | strategy-engine/src/main/java/com/algotrader/strategy/impl/SimpleMovingAverageStrategy.java:91-95 | the SMA has at most 10 fractional digits and lies within half a unit of the last place of the exact mean sum/N; on a tie it is the one farther from zero |
| `SmaCrossover.SmaExample` | strategy-engine/src/main/java/com/algotrader/strategy/impl/SimpleMovingAverageStrategy.java:91-95 | the SMA of [10, 20, 30] with window 3 is exactly 20 |
| `SmaCrossover.SmaWithinRange` | strategy-engine/src/main/java/com/algotrader/strategy/impl/SimpleMovingAverageStrategy.java:91-95 | for prices with at most 10 fractional digits, the SMA of a full window lies between any lower and upper bound of its prices |
| `SmaCrossover.SteadyWindowNotAbove` | strategy-engine/src/main/java/com/algotrader/strategy/impl/SimpleMovingAverageStrategy.java:62-63 | for a price with at most 10 fractional digits, a full window of that one repeated price has it as its SMA, so the price is not above it (the comparison is strict) |
| `SmaCrossover.Slide` | strategy-engine/src/main/java/com/algotrader/strategy/impl/SimpleMovingAverageStrategy.java:50-55 | the new price goes to the back; a window below capacity grows by one, and a full window stays full by dropping only its oldest price |
| `SmaCrossover.LatestSlide` | strategy-engine/src/main/java/com/algotrader/strategy/impl/SimpleMovingAverageStrategy.java:50-55 | sliding the window of the latest N prices gives the latest N prices of the extended history |
| `SmaCrossover.Step` | strategy-engine/src/main/java/com/algotrader/strategy/impl/SimpleMovingAverageStrategy.java:49-84 | below capacity: no signal and the flag is unchanged. When full: the flag becomes "price > SMA". BUY iff the flag goes from false to true, SELL iff it goes from true to false, never HOLD. A signal carries the tick's symbol and price, the name "SMA-N" and the current instant. The invariant is preserved |
| `SmaCrossover.StepKeepsAlternation` | strategy-engine/src/main/java/com/algotrader/strategy/impl/SimpleMovingAverageStrategy.java:70-83 | one more tick keeps the emitted signals strictly alternating BUY/SELL, with the flag matching the last signal |
| `SmaCrossover.RunInvariant` | strategy-engine/src/main/java/com/algotrader/strategy/impl/SimpleMovingAverageStrategy.java:49-84 | after any sequence of ticks, the window holds at most N prices, the flag is set iff the window is full, and the signals alternate |
| `SmaCrossover.RunWindowIsLatest` | strategy-engine/src/main/java/com/algotrader/strategy/impl/SimpleMovingAverageStrategy.java:50-55 | after any sequence of ticks, the window is exactly the last min(N, count) prices in arrival order |
| `SmaCrossover.RunQuietUntilFull` | strategy-engine/src/main/java/com/algotrader/strategy/impl/SimpleMovingAverageStrategy.java:57-70 | no signal is emitted during the first N ticks; the flag stays null until the N-th tick, which only sets the baseline |
| `SmaCrossover.SteadyPriceBaseline` | strategy-engine/src/main/java/com/algotrader/strategy/impl/SimpleMovingAverageStrategy.java:62-83 | N ticks at one steady price with at most 10 fractional digits emit nothing and leave the baseline at "not above" |
| `SmaCrossover.ScenarioCrossing` | strategy-engine/src/main/java/com/algotrader/strategy/impl/SimpleMovingAverageStrategy.java:62-83 | with window 5, a run of five ticks at 100 followed by one at 101 ends with the window [100, 100, 100, 100, 101] and the flag "above" (101 > SMA 100.2), and emits exactly one signal, a BUY at the sixth tick |
| `SmaCrossover.OffGridSteadyPriceAbove` | strategy-engine/src/main/java/com/algotrader/strategy/impl/SimpleMovingAverageStrategy.java:62-63 | a price with more than 10 fractional digits can be above its own steady SMA: with window 1, the price 0.00000000004 has SMA 0 and sets the baseline "above" |
| `Strategy.SimpleMovingAverageStrategy.Process` | strategy-engine/src/main/java/com/algotrader/strategy/impl/SimpleMovingAverageStrategy.java:49-84 | the in-place update of the window and flag, and the returned signal, are exactly `Step`. The window grows to at most N. The class invariant is kept: latest prices, baseline iff full, signals alternating |

## Left out

- The Redis listener, both publishers, the ingestor applications, the Binance clients and the JSON utility are not part of this model. They are network I/O, foreign libraries and thread scheduling. The listener's discard of malformed messages is therefore not modelled.
- Logging calls are not modelled. They have no effect on state.
- `Signal.of` reads the clock. The model passes the instant in as a parameter, and `Instant` is opaque.
- `BigDecimal` scale is not modelled. Prices are exact numeric values, so 100.0 and 100.00 are the same price. A signal's price keeps the value and not the scale. This is safe because every comparison in the strategy uses `compareTo`.
- `window` is a Java `int`, but the model uses an unbounded integer. Every positive window behaves the same. The only 32-bit effect would be a `LinkedList` size overflow, which cannot be reached.
- Concurrent calls to `process` are not modelled. The class is not synchronized, and the model assumes its callers serialize the calls.
- Two further properties are not proved, because neither holds exactly in the code. The first: a strictly increasing sequence that crosses its mean once gives one BUY. Rounding to 10 digits can make a rising price equal its SMA, which counts as "not above". The second: reflecting a BUY-triggering price sequence around its mean gives a SELL at the same tick. The comparison is strict on both sides, so a price equal to the SMA counts as "not above" in the reflected sequence too.
- Prices are assumed to be present: a tick's price is a number, never null. The source does not guarantee this. A tick whose JSON lacks the price decodes with a null price, and `process` appends that null to the window, possibly evicting a real price. Once the window is full, the sum in `calculateSma` throws a NullPointerException before the flag is updated. Every later call throws too, until the null has been evicted. If the null arrives on the tick that fills the window, the window is full while the flag is still null, which breaks the invariant "baseline set exactly when the window is full". The model has no null price, so it does not capture these exceptions or that state.
