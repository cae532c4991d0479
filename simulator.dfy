/** The trading-game component: a price history driven by a periodic tick and
    a ledger driven by the user's buy and sell actions. The pure reducer
    (Snapshot, Event, Step) says what one action does; the class keeps the
    component's state in fields and updates it in place. */
module Simulator {
  import opened Basics
  import opened PriceProcess
  import opened Ledger

  /** Everything the component keeps between renders. */
  datatype Snapshot = Snapshot(account: Account, currentPrice: real, priceHistory: seq<Candle>)

  /** The actions that change the state: a timer tick with its draws, and the
      user's purchases and sales. */
  datatype Event =
    | Tick(draws: Draws, now: Instant)
    | BuyOrder(requested: real, now: Instant)
    | SellOrder(percentage: real, now: Instant)

  const INITIAL_PRICE: real := 100.0

  /** The state at mount: the opening balance, no position, and a history of
      one flat candle at the initial price. */
  function InitialState(now: Instant): Snapshot {
    Snapshot(InitialAccount(), INITIAL_PRICE,
      [Candle(INITIAL_PRICE, INITIAL_PRICE, INITIAL_PRICE, INITIAL_PRICE, now)])
  }

  /** What a caller can feed the component: draws from a uniform source, and
      sale percentages in (0, 100] (the buttons offer 25, 50, 75 and 100). */
  predicate Admissible(e: Event) {
    match e
    case Tick(d, _) => ValidDraws(d)
    case BuyOrder(_, _) => true
    case SellOrder(percentage, _) => 0.0 < percentage <= 100.0
  }

  /** The invariant of every reachable state: a valid ledger; a non-empty,
      bounded, chained history of well-formed candles none of which closes
      below the floor; and a current price equal to the last close. */
  predicate Consistent(s: Snapshot) {
    Valid(s.account) && HistoryConsistent(s.priceHistory, s.currentPrice)
  }

  /** One action. A tick appends the next candle to the window and makes its
      close the current price; purchases and sales trade at the current price. */
  function Step(s: Snapshot, e: Event): (r: Snapshot)
    requires 0 < |s.priceHistory|
    ensures 0 < |r.priceHistory|
    ensures e.Tick? ==> r.account == s.account && r.currentPrice == r.priceHistory[|r.priceHistory| - 1].close
    ensures e.Tick? ==> r.priceHistory[|r.priceHistory| - 1].open == s.priceHistory[|s.priceHistory| - 1].close
    ensures !e.Tick? ==> r.currentPrice == s.currentPrice && r.priceHistory == s.priceHistory
  {
    match e
    case Tick(d, now) =>
      var c := NextCandle(s.priceHistory[|s.priceHistory| - 1], d, now);
      Snapshot(s.account, c.close, Window(s.priceHistory, c))
    case BuyOrder(requested, now) =>
      Snapshot(BuyStep(s.account, s.currentPrice, requested, now), s.currentPrice, s.priceHistory)
    case SellOrder(percentage, now) =>
      Snapshot(SellStep(s.account, s.currentPrice, percentage, now), s.currentPrice, s.priceHistory)
  }

  /** A session: the actions applied in order. */
  function Run(s: Snapshot, events: seq<Event>): Snapshot
    requires 0 < |s.priceHistory|
    decreases |events|
  {
    if events == [] then s else Run(Step(s, events[0]), events[1..])
  }

  /** The initial state is consistent. */
  lemma InitialConsistent(now: Instant)
    ensures Consistent(InitialState(now))
  {
  }

  /** The history part of the invariant: non-empty, bounded, chained, every
      candle well formed and closing at or above the floor, the current price
      being the last close. */
  predicate HistoryConsistent(h: seq<Candle>, currentPrice: real) {
    0 < |h| <= HISTORY_CAPACITY &&
    Chained(h) &&
    (forall i :: 0 <= i < |h| ==> WellFormed(h[i]) && h[i].close >= PRICE_FLOOR) &&
    currentPrice == h[|h| - 1].close
  }

  /** A tick with draws from a uniform source keeps the history consistent. */
  lemma TickKeepsHistory(h: seq<Candle>, currentPrice: real, d: Draws, now: Instant)
    requires HistoryConsistent(h, currentPrice) && ValidDraws(d)
    ensures var c := NextCandle(h[|h| - 1], d, now);
      HistoryConsistent(Window(h, c), c.close)
  {
    var c := NextCandle(h[|h| - 1], d, now);
    NextCandleShape(h[|h| - 1], d, now);
    WindowKeepsChain(h, c);
    var w := Window(h, c);
    forall i | 0 <= i < |w|
      ensures WellFormed(w[i]) && w[i].close >= PRICE_FLOOR
    {
      var k := |h| + 1 - |w|;
      assert w[i] == (h + [c])[k + i];
    }
  }

  /** An admissible action keeps the state consistent and only appends to the
      trade log: at most one line, earlier lines untouched. */
  lemma StepKeepsConsistent(s: Snapshot, e: Event)
    requires Consistent(s) && Admissible(e)
    ensures Consistent(Step(s, e))
    ensures var log := Step(s, e).account.log;
      |s.account.log| <= |log| <= |s.account.log| + 1 && log[..|s.account.log|] == s.account.log
  {
    assert s.currentPrice > 0.0;
    match e
    case Tick(d, now) =>
      TickKeepsHistory(s.priceHistory, s.currentPrice, d, now);
    case BuyOrder(requested, now) =>
      BuyKeepsValid(s.account, s.currentPrice, requested, now);
    case SellOrder(percentage, now) =>
      SellKeepsValid(s.account, s.currentPrice, percentage, now);
  }

  /** Over a whole session of admissible actions the state stays consistent,
      the trade log only grows (by at most one line per action) and the lines
      it held at the start are kept as they were. */
  lemma {:induction false} RunKeepsConsistent(s: Snapshot, events: seq<Event>)
    requires Consistent(s)
    requires forall i :: 0 <= i < |events| ==> Admissible(events[i])
    ensures Consistent(Run(s, events))
    ensures var log := Run(s, events).account.log;
      |s.account.log| <= |log| <= |s.account.log| + |events| && log[..|s.account.log|] == s.account.log
    decreases |events|
  {
    if events != [] {
      var next := Step(s, events[0]);
      StepKeepsConsistent(s, events[0]);
      RunKeepsConsistent(next, events[1..]);
      var log := Run(s, events).account.log;
      assert log == Run(next, events[1..]).account.log;
      assert log[..|next.account.log|] == next.account.log;
      assert next.account.log[..|s.account.log|] == s.account.log;
      assert log[..|s.account.log|] == log[..|next.account.log|][..|s.account.log|];
    }
  }

  /** Every state a session reaches from mount is consistent; in particular the
      balance and the investment never go negative and the price never falls
      below the floor. */
  lemma ReachableConsistent(now: Instant, events: seq<Event>)
    requires forall i :: 0 <= i < |events| ==> Admissible(events[i])
    ensures var s := Run(InitialState(now), events);
      Consistent(s) && s.account.balance >= 0.0 && s.account.investment >= 0.0 &&
      s.currentPrice >= PRICE_FLOOR && |s.account.log| <= |events|
  {
    InitialConsistent(now);
    RunKeepsConsistent(InitialState(now), events);
  }

  /** The component itself, with its state in mutable fields. */
  class MarketSimulator {
    var balance: real
    var investment: real
    var currentPrice: real
    var investmentPrice: real
    var tradeHistory: seq<Trade>
    var priceHistory: seq<Candle>

    /** The fields as one value. */
    function State(): Snapshot
      reads this
    {
      Snapshot(Account(balance, investment, investmentPrice, tradeHistory), currentPrice, priceHistory)
    }

    ghost predicate Valid()
      reads this
    {
      Consistent(State())
    }

    constructor (now: Instant)
      ensures Valid() && State() == InitialState(now)
    {
      balance := INITIAL_BALANCE;
      investment := 0.0;
      currentPrice := INITIAL_PRICE;
      investmentPrice := 0.0;
      tradeHistory := [];
      priceHistory := [Candle(INITIAL_PRICE, INITIAL_PRICE, INITIAL_PRICE, INITIAL_PRICE, now)];
    }

    /** The unrealised pnl of the held position at the current price: zero
        when flat, and at a positive price never a loss of the whole investment. */
    function CalculateProfitLoss(): (pnl: real)
      reads this
      ensures pnl == ProfitLoss(investment, investmentPrice, currentPrice)
      ensures investment <= 0.0 || investmentPrice <= 0.0 ==> pnl == 0.0
      ensures investment > 0.0 && currentPrice > 0.0 ==> pnl > -investment
    {
      if investment > 0.0 && currentPrice > 0.0 then
        LossBounded(investment, investmentPrice, currentPrice);
        ProfitLoss(investment, investmentPrice, currentPrice)
      else
        ProfitLoss(investment, investmentPrice, currentPrice)
    }

    /** One timer tick: the next candle from the last one, its close as the
        current price, and the history window advanced. */
    method OnTick(d: Draws, now: Instant)
      requires Valid() && ValidDraws(d)
      modifies this
      ensures Valid()
      ensures State() == Step(old(State()), Tick(d, now))
    {
      ghost var before := State();
      StepKeepsConsistent(before, Tick(d, now));
      var newCandle := NextCandle(priceHistory[|priceHistory| - 1], d, now);
      assert Step(before, Tick(d, now)) == Snapshot(before.account, newCandle.close, Window(before.priceHistory, newCandle));
      currentPrice := newCandle.close;
      priceHistory := Window(priceHistory, newCandle);
      assert State() == Snapshot(before.account, newCandle.close, Window(before.priceHistory, newCandle));
    }

    /** The BUY button with `requested` typed in the amount field. */
    method HandleBuy(requested: real, now: Instant)
      requires Valid()
      modifies this
      ensures Valid()
      ensures State() == Step(old(State()), BuyOrder(requested, now))
    {
      StepKeepsConsistent(State(), BuyOrder(requested, now));
      var amount := Min(balance, requested);
      if amount > 0.0 {
        balance := balance - amount;
        investment := investment + amount;
        investmentPrice := currentPrice;
        tradeHistory := tradeHistory + [Trade(Buy, amount, currentPrice, now, None)];
      }
    }

    /** One of the sell buttons, selling `percentage` percent. */
    method HandleSell(percentage: real, now: Instant)
      requires Valid() && 0.0 < percentage <= 100.0
      modifies this
      ensures Valid()
      ensures State() == Step(old(State()), SellOrder(percentage, now))
    {
      ghost var before := State();
      ghost var after := Step(before, SellOrder(percentage, now));
      StepKeepsConsistent(before, SellOrder(percentage, now));
      if investment > 0.0 {
        var sellAmount := investment * percentage / 100.0;
        var pnl := CalculateProfitLoss() * (percentage / 100.0);
        var returnAmount := investment + pnl;
        var line := Trade(Sell, investment, currentPrice, now, Some(pnl));
        var remaining := if percentage == 100.0 then 0.0 else investment - sellAmount;
        var entryPrice := if percentage == 100.0 then 0.0 else investmentPrice;
        SellStepOpen(before.account, currentPrice, percentage, now, pnl, remaining, entryPrice);
        assert after.account == Account(balance + returnAmount, remaining, entryPrice, tradeHistory + [line]);
        balance := balance + returnAmount;
        tradeHistory := tradeHistory + [line];
        investment := remaining;
        investmentPrice := entryPrice;
        assert State() == after;
      }
    }
  }
}
