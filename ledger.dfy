/** The position ledger: cash balance, the amount invested, the entry price of
    that investment and an append-only trade log. The position is FLAT when
    nothing is invested and OPEN when the investment is positive. */
module Ledger {
  import opened Basics

  datatype Side = Buy | Sell

  /** One line of the trade log. A purchase records no pnl; a sale records the
      pnl it realised. */
  datatype Trade = Trade(side: Side, amount: real, price: real, timestamp: Instant, pnl: Option<real>)

  /** The ledger part of the component's state. */
  datatype Account = Account(balance: real, investment: real, investmentPrice: real, log: seq<Trade>)

  const INITIAL_BALANCE: real := 200.0

  function InitialAccount(): Account {
    Account(INITIAL_BALANCE, 0.0, 0.0, [])
  }

  /** A recorded trade has a positive amount and price; exactly the purchases
      carry no pnl. */
  predicate WellFormedTrade(t: Trade) {
    t.amount > 0.0 && t.price > 0.0 && (t.side == Buy <==> t.pnl == None)
  }

  /** The price of the most recent purchase in the log, or 0 when there is none. */
  function LastBuyPrice(log: seq<Trade>): (p: real)
    ensures (forall i :: 0 <= i < |log| ==> log[i].side == Sell) ==> p == 0.0
    ensures p == 0.0 || exists i :: 0 <= i < |log| && log[i].side == Buy && log[i].price == p
    ensures (forall i :: 0 <= i < |log| ==> log[i].price > 0.0) ==>
      (p > 0.0 <==> exists i :: 0 <= i < |log| && log[i].side == Buy)
    decreases |log|
  {
    if log == [] then 0.0
    else if log[|log| - 1].side == Buy then log[|log| - 1].price
    else
      var earlier := log[..|log| - 1];
      assert forall i :: 0 <= i < |earlier| ==> earlier[i] == log[i];
      LastBuyPrice(earlier)
  }

  /** LastBuyPrice is the price of the MOST RECENT purchase: a BUY line
      followed only by SELL lines fixes its value. */
  lemma {:induction false} LastBuyPriceIsMostRecent(log: seq<Trade>, i: nat)
    requires i < |log| && log[i].side == Buy
    requires forall j :: i < j < |log| ==> log[j].side == Sell
    ensures LastBuyPrice(log) == log[i].price
    decreases |log|
  {
    if i < |log| - 1 {
      var earlier := log[..|log| - 1];
      assert log[|log| - 1].side == Sell;
      assert forall j :: i < j < |earlier| ==> earlier[j] == log[j];
      LastBuyPriceIsMostRecent(earlier, i);
    }
  }

  /** The invariant every reachable ledger keeps: nothing negative, an entry
      price exactly when a position is open, that entry price being the price
      of the most recent purchase, and a well-formed log. */
  predicate Valid(a: Account) {
    a.balance >= 0.0 && a.investment >= 0.0 && a.investmentPrice >= 0.0 &&
    (a.investment > 0.0 <==> a.investmentPrice > 0.0) &&
    (a.investment > 0.0 ==> a.investmentPrice == LastBuyPrice(a.log)) &&
    forall i :: 0 <= i < |a.log| ==> WellFormedTrade(a.log[i])
  }

  /** The unrealised profit or loss of the position at `currentPrice`: zero
      when nothing is invested or there is no entry price, otherwise the
      investment scaled by the relative price change since entry. */
  function ProfitLoss(investment: real, investmentPrice: real, currentPrice: real): (pnl: real)
    ensures investment <= 0.0 || investmentPrice <= 0.0 ==> pnl == 0.0
  {
    if investment <= 0.0 || investmentPrice <= 0.0 then 0.0
    else investment * (currentPrice - investmentPrice) / investmentPrice
  }

  /** The pnl is zero without an open position and an entry price; otherwise
      it is positive exactly when the price is above the entry price and
      negative exactly when it is below. */
  lemma ProfitLossSign(investment: real, investmentPrice: real, currentPrice: real)
    ensures var pnl := ProfitLoss(investment, investmentPrice, currentPrice);
      (investment <= 0.0 || investmentPrice <= 0.0 ==> pnl == 0.0) &&
      (pnl > 0.0 <==> investment > 0.0 && investmentPrice > 0.0 && currentPrice > investmentPrice) &&
      (pnl < 0.0 <==> investment > 0.0 && investmentPrice > 0.0 && currentPrice < investmentPrice)
  {
    if investment > 0.0 && investmentPrice > 0.0 {
      var change := currentPrice - investmentPrice;
      if change > 0.0 {
        assert investment * change > 0.0;
      } else if change < 0.0 {
        assert investment * -change > 0.0;
        assert investment * change / investmentPrice == -(investment * -change / investmentPrice);
      }
    }
  }

  /** Marked to market, an open position is worth the investment scaled by
      the ratio of the current price to the entry price. */
  lemma ProfitLossMarksToMarket(investment: real, investmentPrice: real, currentPrice: real)
    requires investment >= 0.0 && investmentPrice > 0.0
    ensures investment + ProfitLoss(investment, investmentPrice, currentPrice)
      == investment * currentPrice / investmentPrice
  {
    if investment > 0.0 {
      var change := currentPrice - investmentPrice;
      assert investment * change == investment * currentPrice - investment * investmentPrice;
      assert investment * investmentPrice / investmentPrice == investment;
    }
  }

  /** At a non-negative price the loss never exceeds the investment; at a
      positive price an open position never loses all of it. */
  lemma LossBounded(investment: real, investmentPrice: real, currentPrice: real)
    requires investment >= 0.0 && currentPrice >= 0.0
    ensures ProfitLoss(investment, investmentPrice, currentPrice) >= -investment
    ensures currentPrice > 0.0 && investment > 0.0 ==>
      ProfitLoss(investment, investmentPrice, currentPrice) > -investment
  {
    if investment > 0.0 && investmentPrice > 0.0 {
      ProfitLossMarksToMarket(investment, investmentPrice, currentPrice);
      assert investment * currentPrice >= 0.0;
      if currentPrice > 0.0 {
        assert investment * currentPrice > 0.0;
      }
    }
  }

  /** The unrealised pnl scales with the amount invested. */
  lemma ProfitLossScales(investment: real, investmentPrice: real, price: real, k: real)
    requires investment > 0.0 && investmentPrice > 0.0 && k > 0.0
    ensures ProfitLoss(investment * k, investmentPrice, price) == k * ProfitLoss(investment, investmentPrice, price)
  {
    assert investment * k > 0.0;
    var change := price - investmentPrice;
    assert investment * k * change / investmentPrice == k * (investment * change / investmentPrice);
  }

  /** The cash plus the open position marked to market at `price`. */
  function Equity(a: Account, price: real): real {
    a.balance + a.investment + ProfitLoss(a.investment, a.investmentPrice, price)
  }

  /** A purchase of `requested` at `price`. The amount spent is clamped to the
      balance; a purchase of nothing changes nothing. Otherwise the amount
      moves from the balance into the investment, the entry price becomes
      `price` (it is replaced, not averaged) and one BUY line without pnl is
      appended. */
  function BuyStep(a: Account, price: real, requested: real, now: Instant): (r: Account)
    ensures r == a <==> requested <= 0.0 || a.balance <= 0.0
    ensures 0.0 < a.balance <= requested ==> r.balance == 0.0 && r.investment == a.investment + a.balance
    ensures 0.0 < requested <= a.balance ==> r.balance == a.balance - requested && r.investment == a.investment + requested
    ensures a.balance >= 0.0 ==> r.balance >= 0.0
    ensures r.balance + r.investment == a.balance + a.investment
    ensures r != a ==> r.investmentPrice == price
    ensures r != a ==> r.log == a.log + [Trade(Buy, r.investment - a.investment, price, now, None)]
  {
    var amount := Min(a.balance, requested);
    if amount > 0.0 then
      Account(a.balance - amount, a.investment + amount, price, a.log + [Trade(Buy, amount, price, now, None)])
    else
      a
  }

  /** A sale of `percentage` percent of the position at `price`. Without an
      open position nothing changes. Otherwise the realised pnl is that share
      of the unrealised pnl; the balance is credited with the WHOLE investment
      plus that pnl; one SELL line records the whole investment before the
      sale, the price and the pnl. A full sale closes the position, clears the
      entry price and leaves the balance at the old equity; a partial one
      keeps the entry price and the unsold share of the investment. */
  function SellStep(a: Account, price: real, percentage: real, now: Instant): (r: Account)
    ensures a.investment <= 0.0 ==> r == a
    ensures a.investment > 0.0 ==>
      var pnl := ProfitLoss(a.investment, a.investmentPrice, price) * (percentage / 100.0);
      r.balance == a.balance + a.investment + pnl &&
      r.log == a.log + [Trade(Sell, a.investment, price, now, Some(pnl))]
    ensures a.investment > 0.0 && percentage == 100.0 ==>
      r.investment == 0.0 && r.investmentPrice == 0.0 && r.balance == Equity(a, price)
    ensures a.investment > 0.0 && percentage != 100.0 ==>
      r.investmentPrice == a.investmentPrice && r.investment == a.investment - a.investment * percentage / 100.0
  {
    if a.investment <= 0.0 then a
    else
      var sellAmount := a.investment * percentage / 100.0;
      var pnl := ProfitLoss(a.investment, a.investmentPrice, price) * (percentage / 100.0);
      var returnAmount := a.investment + pnl;
      var line := Trade(Sell, a.investment, price, now, Some(pnl));
      if percentage == 100.0 then
        assert percentage / 100.0 == 1.0;
        Account(a.balance + returnAmount, 0.0, 0.0, a.log + [line])
      else
        Account(a.balance + returnAmount, a.investment - sellAmount, a.investmentPrice, a.log + [line])
  }

  /** SellStep on an open position, from the realised pnl, the remaining
      investment and the entry price it keeps. */
  lemma SellStepOpen(a: Account, price: real, percentage: real, now: Instant, pnl: real, remaining: real, entryPrice: real)
    requires a.investment > 0.0
    requires pnl == ProfitLoss(a.investment, a.investmentPrice, price) * (percentage / 100.0)
    requires remaining == if percentage == 100.0 then 0.0 else a.investment - a.investment * percentage / 100.0
    requires entryPrice == if percentage == 100.0 then 0.0 else a.investmentPrice
    ensures SellStep(a, price, percentage, now) ==
      Account(a.balance + (a.investment + pnl), remaining, entryPrice, a.log + [Trade(Sell, a.investment, price, now, Some(pnl))])
  {
  }

  /** A partial sale keeps the unsold share of the investment, strictly
      between nothing and the whole investment. */
  lemma PartialSellKeepsShare(a: Account, price: real, percentage: real, now: Instant)
    requires a.investment > 0.0 && 0.0 < percentage < 100.0
    ensures var r := SellStep(a, price, percentage, now);
      r.investment == a.investment * (1.0 - percentage / 100.0) && 0.0 < r.investment < a.investment
  {
    UnsoldShare(a.investment, percentage, SellStep(a, price, percentage, now).investment);
  }

  /** What a partial sale leaves invested: the unsold share, strictly between
      nothing and the whole investment. */
  lemma UnsoldShare(investment: real, percentage: real, rest: real)
    requires investment > 0.0 && 0.0 < percentage < 100.0
    requires rest == investment - investment * percentage / 100.0
    ensures rest == investment * (1.0 - percentage / 100.0)
    ensures 0.0 < rest < investment
  {
    var share := percentage / 100.0;
    assert investment * percentage / 100.0 == investment * share;
    assert investment * share > 0.0;
    assert investment * (1.0 - share) > 0.0;
  }

  /** A share in (0, 1] of a pnl no worse than -investment is no worse than
      -investment either. */
  lemma ShareOfLoss(investment: real, pnl: real, share: real)
    requires investment >= 0.0 && pnl >= -investment
    requires 0.0 < share <= 1.0
    ensures investment + pnl * share >= 0.0
  {
    if pnl < 0.0 {
      assert pnl * (1.0 - share) <= 0.0;
    } else {
      assert pnl * share >= 0.0;
    }
  }

  // ---------------------------------------------------------------------------
  // Invariants.

  /** Appending one line never changes the most recent purchase unless the
      line is itself a purchase. */
  lemma LastBuyPriceAppend(log: seq<Trade>, t: Trade)
    ensures LastBuyPrice(log + [t]) == if t.side == Buy then t.price else LastBuyPrice(log)
  {
    assert (log + [t])[..|log|] == log;
  }

  /** A purchase at a positive price keeps the ledger invariant. */
  lemma BuyKeepsValid(a: Account, price: real, requested: real, now: Instant)
    requires Valid(a) && price > 0.0
    ensures Valid(BuyStep(a, price, requested, now))
  {
    var r := BuyStep(a, price, requested, now);
    if r != a {
      var t := Trade(Buy, r.investment - a.investment, price, now, None);
      LastBuyPriceAppend(a.log, t);
      assert forall i :: 0 <= i < |r.log| ==> r.log[i] == if i < |a.log| then a.log[i] else t;
    }
  }

  /** A sale of a share in (0, 100] percent at a non-negative price credits a
      non-negative amount. */
  lemma SellKeepsBalance(a: Account, price: real, percentage: real, now: Instant)
    requires a.investment >= 0.0 && price >= 0.0
    requires 0.0 < percentage <= 100.0
    ensures SellStep(a, price, percentage, now).balance >= a.balance
  {
    if a.investment > 0.0 {
      var open := ProfitLoss(a.investment, a.investmentPrice, price);
      LossBounded(a.investment, a.investmentPrice, price);
      ShareOfLoss(a.investment, open, percentage / 100.0);
    }
  }

  /** A sale of a share in (0, 100] percent at a positive price keeps the
      ledger invariant. */
  lemma SellKeepsValid(a: Account, price: real, percentage: real, now: Instant)
    requires Valid(a) && price > 0.0
    requires 0.0 < percentage <= 100.0
    ensures Valid(SellStep(a, price, percentage, now))
  {
    var r := SellStep(a, price, percentage, now);
    if a.investment > 0.0 {
      var pnl := ProfitLoss(a.investment, a.investmentPrice, price) * (percentage / 100.0);
      var t := Trade(Sell, a.investment, price, now, Some(pnl));
      assert r.log == a.log + [t];
      SellKeepsBalance(a, price, percentage, now);
      if percentage < 100.0 {
        PartialSellKeepsShare(a, price, percentage, now);
      }
      LastBuyPriceAppend(a.log, t);
      assert r.investment > 0.0 ==> r.investmentPrice == LastBuyPrice(r.log);
      assert forall i :: 0 <= i < |r.log| ==> r.log[i] == if i < |a.log| then a.log[i] else t;
    }
  }

  // ---------------------------------------------------------------------------
  // What the accounting does to the equity (cash plus marked-to-market position).

  /** Because a purchase replaces the entry price instead of averaging it, it
      throws away the unrealised pnl of the position already held: the equity
      at the purchase price drops by exactly that pnl. */
  lemma BuyForfeitsOpenProfit(a: Account, price: real, requested: real, now: Instant)
    requires Valid(a) && price > 0.0
    requires requested > 0.0 && a.balance > 0.0
    ensures Equity(BuyStep(a, price, requested, now), price)
      == Equity(a, price) - ProfitLoss(a.investment, a.investmentPrice, price)
  {
    var r := BuyStep(a, price, requested, now);
    assert r.investmentPrice == price;
    assert ProfitLoss(r.investment, price, price) == 0.0;
  }

  /** A full sale turns the position into cash at its marked value: the equity
      at the sale price is unchanged. */
  lemma FullSellKeepsEquity(a: Account, price: real, now: Instant)
    requires Valid(a)
    ensures Equity(SellStep(a, price, 100.0, now), price) == Equity(a, price)
  {
  }

  /** Because a sale credits the whole investment whatever the share sold, a
      partial sale raises the equity at the sale price by the unsold part of
      the investment. */
  lemma PartialSellCreditsUnsoldShare(a: Account, price: real, percentage: real, now: Instant)
    requires a.investment > 0.0
    requires 0.0 < percentage < 100.0
    ensures var r := SellStep(a, price, percentage, now);
      Equity(r, price) == Equity(a, price) + r.investment
  {
    var r := SellStep(a, price, percentage, now);
    var share := percentage / 100.0;
    var open := ProfitLoss(a.investment, a.investmentPrice, price);
    PartialSellKeepsShare(a, price, percentage, now);
    assert r.balance == a.balance + a.investment + open * share;
    if a.investmentPrice > 0.0 {
      ProfitLossScales(a.investment, a.investmentPrice, price, 1.0 - share);
    }
    assert ProfitLoss(r.investment, r.investmentPrice, price) == (1.0 - share) * open;
    assert open * share + (1.0 - share) * open == open;
  }

  /** Two purchases followed by a half sale, from the opening balance: the
      second purchase moves the entry price to 120 (no averaging with the
      first at 100), so the half sale at 120 realises no pnl and yet credits
      the whole 80 invested. */
  lemma TwoBuysThenHalfSell(t1: Instant, t2: Instant, t3: Instant)
    ensures var a1 := BuyStep(InitialAccount(), 100.0, 50.0, t1);
      var a2 := BuyStep(a1, 120.0, 30.0, t2);
      var a3 := SellStep(a2, 120.0, 50.0, t3);
      a1.balance == 150.0 && a1.investment == 50.0 && a1.investmentPrice == 100.0 &&
      a2.balance == 120.0 && a2.investment == 80.0 && a2.investmentPrice == 120.0 &&
      a3.balance == 200.0 && a3.investment == 40.0 && a3.investmentPrice == 120.0 &&
      a3.log[2] == Trade(Sell, 80.0, 120.0, t3, Some(0.0))
  {
  }
}
