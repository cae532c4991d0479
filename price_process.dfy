/** The market-path generator: the next OHLC candle from the previous close and
    a handful of uniform draws, and the bounded window of recent candles. */
module PriceProcess {
  import opened Basics

  /** One price bar. The generator builds these; nothing changes them afterwards. */
  datatype Candle = Candle(open: real, high: real, low: real, close: real, timestamp: Instant)

  const BASE_VOLATILITY: real := 8.0
  /** A spike fires when its draw lies strictly above this threshold. */
  const SPIKE_THRESHOLD: real := 0.9
  /** No close ever falls below this price. */
  const PRICE_FLOOR: real := 1.0
  /** The price history keeps at most this many candles. */
  const HISTORY_CAPACITY: nat := 200

  /** The uniform draws one candle consumes, in the order the generator asks
      for them. `spikeSizeDraw` is only drawn when the spike fires. Each field is
      the raw draw, not the quantity computed from it. */
  datatype Draws = Draws(
    volatilityDraw: real,
    trendStrength: real,
    biasDraw: real,
    spikeChance: real,
    spikeSizeDraw: real,
    moveDraw: real,
    wickDraw: real,
    upperWickDraw: real,
    lowerWickDraw: real)

  /** What a uniform random source in [0,1) can return. */
  predicate Unit(x: real) {
    0.0 <= x < 1.0
  }

  predicate ValidDraws(d: Draws) {
    Unit(d.volatilityDraw) && Unit(d.trendStrength) && Unit(d.biasDraw) &&
    Unit(d.spikeChance) && Unit(d.spikeSizeDraw) && Unit(d.moveDraw) &&
    Unit(d.wickDraw) && Unit(d.upperWickDraw) && Unit(d.lowerWickDraw)
  }

  /** The OHLC ordering: the wicks enclose the body. */
  predicate WellFormed(c: Candle) {
    c.low <= Min(c.open, c.close) && Max(c.open, c.close) <= c.high
  }

  /** Each candle opens at the close of the one before it. */
  predicate Chained(h: seq<Candle>) {
    forall i :: 0 < i < |h| ==> h[i].open == h[i - 1].close
  }

  // ---------------------------------------------------------------------------
  // Arithmetic helpers for the product bounds below.

  /** A product of a value inside (-bound, bound) with a positive factor of at
      most `cap` lies inside (-bound * cap, bound * cap). */
  lemma ScaledWithin(x: real, bound: real, y: real, cap: real)
    requires -bound < x < bound
    requires 0.0 < y <= cap
    ensures -bound * cap < x * y < bound * cap
  {
    assert (bound - x) * y > 0.0;
    assert (bound + x) * y > 0.0;
    assert bound * (cap - y) >= 0.0;
  }

  /** A product of a non-negative value below `bound` with a factor in
      (0, cap] is non-negative and below `bound * cap`. */
  lemma ScaledBelow(x: real, bound: real, y: real, cap: real)
    requires 0.0 <= x < bound
    requires 0.0 < y <= cap
    ensures 0.0 <= x * y < bound * cap
  {
    ScaledWithin(x, bound, y, cap);
    assert x * y >= 0.0;
  }

  /** Scaling a value of magnitude at most `bound` by a factor in [0, 1)
      leaves it strictly inside (-bound, bound). */
  lemma ShrunkWithin(x: real, bound: real, y: real)
    requires -bound <= x <= bound && bound > 0.0
    requires 0.0 <= y < 1.0
    ensures -bound < x * y < bound
  {
    assert (bound - x) * y >= 0.0;
    assert (bound + x) * y >= 0.0;
    assert bound * (1.0 - y) > 0.0;
  }

  // ---------------------------------------------------------------------------
  // The generator, one formula at a time.

  /** The tick's volatility: the base volatility raised by up to one half. */
  function Volatility(draw: real): (v: real)
    ensures Unit(draw) ==> BASE_VOLATILITY <= v < 1.5 * BASE_VOLATILITY
  {
    BASE_VOLATILITY * (1.0 + draw * 0.5)
  }

  /** The drift of the tick: a centred draw scaled by a random trend strength. */
  function Bias(trendStrength: real, draw: real): (b: real)
    ensures Unit(trendStrength) && Unit(draw) ==> -2.0 < b < 2.0
    ensures draw == 0.5 || trendStrength == 0.0 ==> b == 0.0
  {
    var centred := (draw - 0.5) * 4.0;
    if Unit(trendStrength) && Unit(draw) then
      ShrunkWithin(centred, 2.0, trendStrength);
      centred * trendStrength
    else
      centred * trendStrength
  }

  /** The spike multiplier: one, unless the spike draw exceeds the threshold,
      in which case it lies in [1, 3). */
  function SpikeMultiplier(chance: real, size: real): (m: real)
    ensures chance <= SPIKE_THRESHOLD ==> m == 1.0
    ensures chance > SPIKE_THRESHOLD && Unit(size) ==> 1.0 <= m < 3.0
  {
    if chance > SPIKE_THRESHOLD then size * 2.0 + 1.0 else 1.0
  }

  /** The wick volatility: between half and all of the tick's volatility. */
  function WickVolatility(volatility: real, draw: real): (w: real)
    ensures Unit(draw) && volatility > 0.0 ==> volatility * 0.5 <= w < volatility
  {
    var factor := draw * 0.5 + 0.5;
    if Unit(draw) && volatility > 0.0 then
      assert volatility - volatility * factor == volatility * (1.0 - factor);
      assert volatility * (1.0 - factor) > 0.0;
      assert volatility * factor - volatility * 0.5 == volatility * (draw * 0.5);
      ScaledBelow(draw * 0.5, 1.0, volatility, volatility);
      volatility * factor
    else volatility * factor
  }

  /** The signed move of the close away from the open, before the floor. */
  function Move(d: Draws): real {
    (d.moveDraw - 0.5 + Bias(d.trendStrength, d.biasDraw)) * Volatility(d.volatilityDraw)
      * SpikeMultiplier(d.spikeChance, d.spikeSizeDraw)
  }

  /** How far a wick reaches beyond the body, for a wick draw `reach`. */
  function WickReach(d: Draws, reach: real): real {
    reach * WickVolatility(Volatility(d.volatilityDraw), d.wickDraw) * SpikeMultiplier(d.spikeChance, d.spikeSizeDraw)
  }

  /** The next candle: it opens at the previous close, and its close is the
      open moved by `Move(d)`, raised to the floor when the move would take it
      below. The wicks reach `WickReach` beyond the body on either side. */
  function NextCandle(previous: Candle, d: Draws, now: Instant): (c: Candle)
    ensures c.open == previous.close && c.timestamp == now
    ensures c.close >= PRICE_FLOOR
    ensures c.close == PRICE_FLOOR || c.close - c.open == Move(d)
    ensures c.close - c.open >= Move(d)
  {
    var open := previous.close;
    var close := Max(PRICE_FLOOR, open + Move(d));
    var high := Max(open, close) + WickReach(d, d.upperWickDraw);
    var low := Min(open, close) - WickReach(d, d.lowerWickDraw);
    Candle(open, high, low, close, now)
  }

  /** For draws a uniform source can return, the move stays inside (-90, 90). */
  lemma MoveBounded(d: Draws)
    requires ValidDraws(d)
    ensures -90.0 < Move(d) < 90.0
  {
    var drift := d.moveDraw - 0.5 + Bias(d.trendStrength, d.biasDraw);
    var volatility := Volatility(d.volatilityDraw);
    ScaledWithin(drift, 2.5, volatility, 12.0);
    ScaledWithin(drift * volatility, 30.0, SpikeMultiplier(d.spikeChance, d.spikeSizeDraw), 3.0);
  }

  /** For draws a uniform source can return, a wick reaches a non-negative
      distance below 36. */
  lemma WickReachBounded(d: Draws, reach: real)
    requires ValidDraws(d) && Unit(reach)
    ensures 0.0 <= WickReach(d, reach) < 36.0
  {
    var wickVolatility := WickVolatility(Volatility(d.volatilityDraw), d.wickDraw);
    ScaledBelow(reach, 1.0, wickVolatility, 12.0);
    ScaledBelow(reach * wickVolatility, 12.0, SpikeMultiplier(d.spikeChance, d.spikeSizeDraw), 3.0);
  }

  /** For draws a uniform source can return, the new candle's wicks enclose its
      body, its body moves less than 90 away from the open (upwards only when
      it is not on the floor) and each wick reaches less than 36 beyond it. */
  lemma NextCandleShape(previous: Candle, d: Draws, now: Instant)
    requires ValidDraws(d)
    ensures var c := NextCandle(previous, d, now);
      WellFormed(c) &&
      c.open - c.close < 90.0 && (c.close == PRICE_FLOOR || c.close - c.open < 90.0) &&
      c.high - Max(c.open, c.close) < 36.0 && Min(c.open, c.close) - c.low < 36.0
  {
    var c := NextCandle(previous, d, now);
    MoveBounded(d);
    WickReachBounded(d, d.upperWickDraw);
    WickReachBounded(d, d.lowerWickDraw);
  }

  /** The low of a generated candle is not bounded below by zero: a candle
      that closes on the floor can have a negative low. */
  lemma LowCanBeNegative(previous: Candle, now: Instant)
    requires previous.close == PRICE_FLOOR
    ensures var d := Draws(0.0, 0.0, 0.0, 0.95, 0.5, 0.0, 0.5, 0.0, 0.5);
      ValidDraws(d) && NextCandle(previous, d, now).low < 0.0
  {
    var d := Draws(0.0, 0.0, 0.0, 0.95, 0.5, 0.0, 0.5, 0.0, 0.5);
    var c := NextCandle(previous, d, now);
    assert Volatility(0.0) == 8.0;
    assert SpikeMultiplier(0.95, 0.5) == 2.0;
    assert WickVolatility(8.0, 0.5) == 6.0;
    assert c.close == 1.0;
    assert c.low == 1.0 - 0.5 * 6.0 * 2.0;
  }

  // ---------------------------------------------------------------------------
  // The price-history window.

  /** Appends a candle to the history and, beyond the capacity, drops the
      oldest candles: the result is the most recent candles, in order, ending
      with the new one. */
  function Window(history: seq<Candle>, c: Candle): (h: seq<Candle>)
    ensures 0 < |h| <= HISTORY_CAPACITY && |h| <= |history| + 1
    ensures h[|h| - 1] == c
    ensures h == (history + [c])[|history| + 1 - |h|..]
    ensures |history| < HISTORY_CAPACITY ==> h == history + [c]
    ensures |history| >= HISTORY_CAPACITY ==> |h| == HISTORY_CAPACITY
  {
    var appended := history + [c];
    if |appended| > HISTORY_CAPACITY then appended[|appended| - HISTORY_CAPACITY..] else appended
  }

  /** Appending a candle that opens at the last close keeps the window chained. */
  lemma WindowKeepsChain(history: seq<Candle>, c: Candle)
    requires Chained(history)
    requires history != [] ==> c.open == history[|history| - 1].close
    ensures Chained(Window(history, c))
  {
    var appended := history + [c];
    assert Chained(appended) by {
      forall i | 0 < i < |appended|
        ensures appended[i].open == appended[i - 1].close
      {
        if i < |history| {
          assert appended[i] == history[i] && appended[i - 1] == history[i - 1];
        }
      }
    }
    var h := Window(history, c);
    var k := |appended| - |h|;
    forall i | 0 < i < |h|
      ensures h[i].open == h[i - 1].close
    {
      assert h[i] == appended[k + i] && h[i - 1] == appended[k + i - 1];
    }
  }
}
