/**
 * The immutable records shared between the services: market ticks and
 * trading signals. Clock readings are opaque values supplied by the caller.
 */
module SharedModel {

  /** A point in time; only ever copied, never inspected. */
  datatype Instant = Instant(epochNanos: int)

  /** The direction of a trading signal. */
  datatype SignalType = BUY | SELL | HOLD

  /** A price snapshot for one trading pair. Prices are exact decimals. */
  datatype Tick = Tick(symbol: string, price: real, timestamp: Instant)

  /** A signal emitted by a strategy. */
  datatype Signal = Signal(kind: SignalType, symbol: string, price: real, strategy: string, timestamp: Instant)

  /** Signal.of: a signal stamped with the current instant, which is passed in as `now`. */
  function SignalOf(kind: SignalType, symbol: string, price: real, strategy: string, now: Instant): Signal
  {
    Signal(kind, symbol, price, strategy, now)
  }
}
