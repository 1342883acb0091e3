/**
 * Accounts, fund quotes and the premium-arbitrage calculation for one fund
 * (`Account`, `FundItem.parse_apply_fee` and
 * `FundItem.calculate_arbitrage_profit` in jisilu_profit_calculator.py).
 *
 * Python `Decimal` amounts are modelled as exact `real`s. The quote record
 * is immutable: instead of writing the computed fields onto the quote, the
 * calculation returns a fresh `Evaluation` that carries the quote with them.
 */
module Funds {
  import opened Wrappers
  import opened DecimalText

  /** A brokerage account's cost model. */
  datatype Account = Account(
    name: string,
    commissionRate: real,  // fraction of the sale amount, 0.0003 for "3 per 10,000"
    minCommission: real,   // floor on the sale commission
    transferFee: real      // fixed fee charged once per trade
  )

  /** One fund quote as read from the market-data feed. */
  datatype FundItem = FundItem(
    fundId: string,
    fundName: string,
    price: real,           // exchange price
    fundNav: real,         // net asset value: the subscription price
    discountRt: real,      // divergence in percent; negative means a premium
    applyFee: string,      // subscription fee as text, "0.12%" or "0.0012"
    redeemFee: string,
    applyStatus: string,   // subscription channel status
    redeemStatus: string,
    volume: real,
    amount: real,
    issuerName: string
  )

  // ---------------------------------------------------------------------
  // Subscription fee
  // ---------------------------------------------------------------------

  /** The rate used when the fee text cannot be read: 0.12%. */
  const DefaultFeeRate: real := 0.0012

  /** A fee written with a percent sign (after trimming). */
  predicate IsPercentForm(fee: string) {
    '%' in Trim(fee)
  }

  /** The text handed to `Decimal`: the trimmed fee, with every `%` removed in the percent form. */
  function FeePayload(fee: string): string {
    if IsPercentForm(fee) then RemoveAll(Trim(fee), '%') else Trim(fee)
  }

  /** The subscription fee as a fraction (`parse_apply_fee`); never fails. */
  function FeeRate(fee: string): (r: real)
    ensures ParseDecimal(FeePayload(fee)).None? ==> r == DefaultFeeRate
  {
    match ParseDecimal(FeePayload(fee))
    case Some(v) => if IsPercentForm(fee) then v / 100.0 else v
    case None => DefaultFeeRate
  }

  /** No well-formed literal contains a percent sign. */
  lemma NoPercentInRender(lit: Literal)
    requires WellFormed(lit)
    ensures '%' !in Render(lit)
  {
    RenderAlphabet(lit, '%');
  }

  /** A fee written as a bare fraction is taken as it is, not divided by 100. */
  lemma FeeRateOfFraction(lit: Literal)
    requires WellFormed(lit)
    ensures FeeRate(Render(lit)) == Value(lit)
  {
    RenderIsTrimmed(lit);
    NoPercentInRender(lit);
    RenderParses(lit);
  }

  /** A fee written as a percentage is divided by 100. */
  lemma FeeRateOfPercent(lit: Literal)
    requires WellFormed(lit)
    ensures FeeRate(Render(lit) + "%") == Value(lit) / 100.0
  {
    var t := Render(lit);
    var s := t + "%";
    RenderIsTrimmed(lit);
    assert t[0] == s[0];
    TrimOfTrimmed(s);
    assert s[|t|] == '%';
    NoPercentInRender(lit);
    RemoveAllConcat(t, "%", '%');
    RemoveAllAbsent(t, '%');
    assert RemoveAll("%", '%') == [];
    assert FeePayload(s) == t;
    RenderParses(lit);
  }

  /** `"X%"` and a bare fraction worth X/100 are the same rate. */
  lemma PercentAgreesWithFraction(pct: Literal, frac: Literal)
    requires WellFormed(pct) && WellFormed(frac)
    requires Value(frac) == Value(pct) / 100.0
    ensures FeeRate(Render(pct) + "%") == FeeRate(Render(frac))
  {
    FeeRateOfPercent(pct);
    FeeRateOfFraction(frac);
  }

  /**
   * Every fee text falls in one of two cases: what is left after trimming
   * (and removing `%` in the percent form) is a decimal literal, and the
   * rate is its value, divided by 100 exactly in the percent form; or it is
   * not, and the rate is the 0.12% default.
   */
  lemma FeeRateCases(fee: string)
    ensures (forall lit :: WellFormed(lit) ==> Render(lit) != Trim(FeePayload(fee))) ==> FeeRate(fee) == DefaultFeeRate
    ensures forall lit :: WellFormed(lit) && Render(lit) == Trim(FeePayload(fee)) ==>
              FeeRate(fee) == (if IsPercentForm(fee) then Value(lit) / 100.0 else Value(lit))
  {
    ParseMatchesGrammar(FeePayload(fee));
  }

  // ---------------------------------------------------------------------
  // Premium arbitrage: subscribe at the net asset value, sell on the exchange
  // ---------------------------------------------------------------------

  /** The sale commission: the proportional commission, but never below the account's minimum. */
  function Commission(sellAmount: real, account: Account): (c: real)
    ensures c >= account.minCommission
    ensures c >= sellAmount * account.commissionRate
    ensures c == account.minCommission || c == sellAmount * account.commissionRate
  {
    var proportional := sellAmount * account.commissionRate;
    if proportional >= account.minCommission then proportional else account.minCommission
  }

  /** The cash amounts of one subscribe-then-sell trade. */
  datatype Costs = Costs(
    subscribeAmount: real,
    subscribeFee: real,
    actualCost: real,
    sellAmount: real,
    sellCommission: real
  )

  /** The amounts of a trade of `quantity` shares of `fund` at subscription fee rate `feeRate`, sold through `account`. */
  function TradeCosts(fund: FundItem, feeRate: real, account: Account, quantity: int): (c: Costs)
    ensures c.subscribeAmount == fund.fundNav * quantity as real
    ensures c.subscribeFee == c.subscribeAmount * feeRate
    ensures c.actualCost == c.subscribeAmount + c.subscribeFee
    ensures c.actualCost == fund.fundNav * quantity as real * (1.0 + feeRate)
    ensures c.actualCost - c.subscribeAmount == c.subscribeAmount * feeRate
    ensures c.sellAmount == fund.price * quantity as real
    ensures c.sellCommission == Commission(c.sellAmount, account)
  {
    var q := quantity as real;
    var subscribeAmount := fund.fundNav * q;
    var subscribeFee := subscribeAmount * feeRate;
    assert subscribeAmount + subscribeFee == subscribeAmount * (1.0 + feeRate);
    var sellAmount := fund.price * q;
    Costs(subscribeAmount, subscribeFee, subscribeAmount + subscribeFee, sellAmount, Commission(sellAmount, account))
  }

  /** The fields `calculate_arbitrage_profit` attaches to a quote. */
  datatype Evaluation = Evaluation(
    fund: FundItem,
    subscribeFeeRate: real,
    estimatedSellPrice: real,
    profit: real,
    profitRate: real       // percent of the actual cost
  )

  /** `profit / cost * 100`: the percentage that, applied to the cost, gives the profit. */
  function RateOf(profit: real, cost: real): (r: real)
    requires cost > 0.0
    ensures r * cost == 100.0 * profit
  {
    profit / cost * 100.0
  }

  /**
   * Settles a trade of `quantity` shares of `fund` at subscription fee rate
   * `feeRate` through `account`: proceeds minus cost, commission and
   * transfer fee, and that profit as a percentage of the cost.
   */
  function Settle(fund: FundItem, feeRate: real, account: Account, quantity: int): (e: Evaluation)
    ensures e.fund == fund && e.subscribeFeeRate == feeRate && e.estimatedSellPrice == fund.price
    ensures e.profit == quantity as real * (fund.price - fund.fundNav * (1.0 + feeRate))
                        - TradeCosts(fund, feeRate, account, quantity).sellCommission - account.transferFee
    ensures TradeCosts(fund, feeRate, account, quantity).actualCost <= 0.0 ==> e.profitRate == 0.0
    ensures TradeCosts(fund, feeRate, account, quantity).actualCost > 0.0 ==>
              e.profitRate * TradeCosts(fund, feeRate, account, quantity).actualCost == 100.0 * e.profit
  {
    var c := TradeCosts(fund, feeRate, account, quantity);
    var profit := c.sellAmount - c.actualCost - c.sellCommission - account.transferFee;
    assert c.sellAmount - c.actualCost == quantity as real * (fund.price - fund.fundNav * (1.0 + feeRate));
    var rate := if c.actualCost > 0.0 then RateOf(profit, c.actualCost) else 0.0;
    Evaluation(fund, feeRate, fund.price, profit, rate)
  }

  /** `calculate_arbitrage_profit`: the trade settled at the fee rate read from the quote's fee text. */
  function Evaluate(fund: FundItem, account: Account, quantity: int): (e: Evaluation)
    ensures e.subscribeFeeRate == FeeRate(fund.applyFee)
    ensures e == Settle(fund, e.subscribeFeeRate, account, quantity)
  {
    Settle(fund, FeeRate(fund.applyFee), account, quantity)
  }

  // ---------------------------------------------------------------------
  // Properties of the calculation
  // ---------------------------------------------------------------------

  /** With a positive cost, the profit rate has the sign of the profit. */
  lemma ProfitRateSign(fund: FundItem, feeRate: real, account: Account, quantity: int)
    requires TradeCosts(fund, feeRate, account, quantity).actualCost > 0.0
    ensures Settle(fund, feeRate, account, quantity).profitRate > 0.0 <==> Settle(fund, feeRate, account, quantity).profit > 0.0
    ensures Settle(fund, feeRate, account, quantity).profitRate == 0.0 <==> Settle(fund, feeRate, account, quantity).profit == 0.0
  {
    var e := Settle(fund, feeRate, account, quantity);
    var cost := TradeCosts(fund, feeRate, account, quantity).actualCost;
    assert e.profitRate * cost == 100.0 * e.profit;
    if e.profitRate > 0.0 {
      assert e.profitRate * cost > 0.0;
    } else if e.profitRate < 0.0 {
      assert e.profitRate * cost < 0.0;
    }
  }

  /**
   * With non-negative fees, a trade can only make money when the exchange
   * price exceeds the net asset value grossed up by the subscription fee.
   */
  lemma ProfitNeedsPremium(fund: FundItem, feeRate: real, account: Account, quantity: int)
    requires quantity > 0
    requires account.minCommission >= 0.0 && account.transferFee >= 0.0
    requires Settle(fund, feeRate, account, quantity).profit > 0.0
    ensures fund.price > fund.fundNav * (1.0 + feeRate)
  {
    var q := quantity as real;
    var margin := fund.price - fund.fundNav * (1.0 + feeRate);
    assert q * margin > 0.0;
  }

  /** Between two sale amounts, the commission grows by no more than the sale amount does. */
  lemma CommissionGrowth(low: real, high: real, account: Account)
    requires low <= high && 0.0 <= account.commissionRate <= 1.0
    ensures 0.0 <= Commission(high, account) - Commission(low, account) <= high - low
  {
    var rate, m := account.commissionRate, account.minCommission;
    var d := high - low;
    var pl, ph := low * rate, high * rate;
    assert ph - pl == d * rate;
    ScaleByFraction(d, rate);
    FloorGrowth(pl, ph, m);
    assert Commission(low, account) == (if pl >= m then pl else m);
    assert Commission(high, account) == (if ph >= m then ph else m);
  }

  /** Raising an amount from `pl` to `ph` raises its floored value `max(_, m)` by between 0 and `ph - pl`. */
  lemma FloorGrowth(pl: real, ph: real, m: real)
    requires pl <= ph
    ensures 0.0 <= (if ph >= m then ph else m) - (if pl >= m then pl else m) <= ph - pl
  {
  }

  /** Scaling a non-negative amount by a fraction in [0, 1] keeps it between 0 and itself. */
  lemma ScaleByFraction(d: real, rate: real)
    requires d >= 0.0 && 0.0 <= rate <= 1.0
    ensures 0.0 <= d * rate <= d
  {
    assert d * rate <= d * 1.0;
  }

  /**
   * A higher exchange price never lowers the profit, as long as the
   * commission rate is a fraction of at most one.
   */
  lemma ProfitMonotoneInPrice(fund: FundItem, feeRate: real, account: Account, quantity: int, higher: real)
    requires quantity >= 0 && 0.0 <= account.commissionRate <= 1.0
    requires higher >= fund.price
    ensures Settle(fund.(price := higher), feeRate, account, quantity).profit >= Settle(fund, feeRate, account, quantity).profit
  {
    var q := quantity as real;
    var c1 := TradeCosts(fund, feeRate, account, quantity);
    var c2 := TradeCosts(fund.(price := higher), feeRate, account, quantity);
    assert c1.actualCost == c2.actualCost;
    assert c2.sellAmount - c1.sellAmount == (higher - fund.price) * q;
    assert c1.sellAmount <= c2.sellAmount;
    CommissionGrowth(c1.sellAmount, c2.sellAmount, account);
  }

  /** The quoted fee "0.12%" reads as the fraction 0.0012. */
  lemma FeeExample()
    ensures FeeRate("0.12%") == 0.0012
  {
    var lit := Literal(Unsigned, "0", Some("12"));
    assert WellFormed(lit) && Render(lit) + "%" == "0.12%" by {
      assert Render(lit) == "0.12";
    }
    assert Value(lit) == 0.12 by {
      assert DigitsValue("1") == 1;
      assert DigitsValue("12") == 12;
    }
    FeeRateOfPercent(lit);
  }

  /** The example quote: net asset value 1, price 1.05, fee "0.12%". */
  function ExampleFund(): FundItem {
    FundItem("", "", 1.05, 1.0, -5.0, "0.12%", "", "", "", 0.0, 0.0, "")
  }

  /** The example account: commission 0.0003 with a minimum of 5, no transfer fee. */
  function ExampleAccount(): Account {
    Account("", 0.0003, 5.0, 0.0)
  }

  /** The worked example on 10000 shares: cost 10012, commission 5 (the floor), profit 483. */
  lemma WorkedExample()
    ensures TradeCosts(ExampleFund(), 0.0012, ExampleAccount(), 10000).actualCost == 10012.0
    ensures TradeCosts(ExampleFund(), 0.0012, ExampleAccount(), 10000).sellCommission == 5.0
    ensures Evaluate(ExampleFund(), ExampleAccount(), 10000).profit == 483.0
    ensures Evaluate(ExampleFund(), ExampleAccount(), 10000).profitRate == 48300.0 / 10012.0
  {
    FeeExample();
    var e := Settle(ExampleFund(), 0.0012, ExampleAccount(), 10000);
    assert e.profit == 483.0;
    assert e.profitRate * 10012.0 == 48300.0;
  }

  /** On a single share the commission floor dominates: 5 instead of 0.000315. */
  lemma SmallTradeExample()
    ensures TradeCosts(ExampleFund(), 0.0012, ExampleAccount(), 1).sellCommission == 5.0
    ensures Evaluate(ExampleFund(), ExampleAccount(), 1).profit == -4.9512
  {
    FeeExample();
    var e := Settle(ExampleFund(), 0.0012, ExampleAccount(), 1);
    assert e.profit == -4.9512;
  }
}
