/**
 * Selecting arbitrage opportunities (`filter_arbitrage_opportunities` in
 * jisilu_profit_calculator.py): a quote is kept when its subscription
 * channel is open and its divergence passes the threshold in the chosen
 * direction.
 */
module Opportunities {
  import opened Funds

  /** The status fragment meaning "open". */
  const OpenMarker: string := "开放"
  /** The status fragment meaning "open, with a cap on large orders". */
  const LargeLimitMarker: string := "限大额"

  const PremiumMode: string := "premium"
  const DiscountMode: string := "discount"

  /** `sub` occurs in `s` starting at position `i`. */
  predicate OccursAt(s: string, sub: string, i: nat) {
    i + |sub| <= |s| && s[i..i + |sub|] == sub
  }

  /** Python's `sub in s`. */
  predicate Contains(s: string, sub: string) {
    exists i: nat | i <= |s| :: OccursAt(s, sub, i)
  }

  /** The subscription channel accepts orders: its status mentions "open" or "open with a large-order cap". */
  predicate SubscriptionOpen(fund: FundItem) {
    Contains(fund.applyStatus, OpenMarker) || Contains(fund.applyStatus, LargeLimitMarker)
  }

  /**
   * The divergence passes the threshold in the mode's direction, boundary
   * included: a premium (negative divergence) at least `minPremium` in
   * size, or a discount (positive divergence) at least `minPremium`. Any
   * other mode passes nothing.
   */
  predicate PassesThreshold(fund: FundItem, minPremium: real, mode: string) {
    if mode == PremiumMode then fund.discountRt < 0.0 && -fund.discountRt >= minPremium
    else if mode == DiscountMode then fund.discountRt > 0.0 && fund.discountRt >= minPremium
    else false
  }

  predicate Eligible(fund: FundItem, minPremium: real, mode: string) {
    SubscriptionOpen(fund) && PassesThreshold(fund, minPremium, mode)
  }

  /** `a` is `b` with some elements left out, the rest in their original order. */
  predicate IsSubsequence<T(==)>(a: seq<T>, b: seq<T>)
    decreases |b|
  {
    if |a| == 0 then true
    else if |b| == 0 then false
    else if a[0] == b[0] then IsSubsequence(a[1..], b[1..])
    else IsSubsequence(a, b[1..])
  }

  /** The eligible quotes, in their input order. */
  function FilterOpportunities(funds: seq<FundItem>, minPremium: real, mode: string): (r: seq<FundItem>)
    ensures IsSubsequence(r, funds)
    ensures forall f :: f in r ==> Eligible(f, minPremium, mode)
    ensures forall f :: f in funds && Eligible(f, minPremium, mode) ==> f in r
    ensures forall f :: multiset(r)[f] == if Eligible(f, minPremium, mode) then multiset(funds)[f] else 0
    ensures mode != PremiumMode && mode != DiscountMode ==> r == []
  {
    if |funds| == 0 then []
    else
      var rest := FilterOpportunities(funds[1..], minPremium, mode);
      assert funds == [funds[0]] + funds[1..];
      if Eligible(funds[0], minPremium, mode) then [funds[0]] + rest else rest
  }

  /** Filtering a second time changes nothing. */
  lemma {:induction false} FilterIdempotent(funds: seq<FundItem>, minPremium: real, mode: string)
    ensures FilterOpportunities(FilterOpportunities(funds, minPremium, mode), minPremium, mode)
            == FilterOpportunities(funds, minPremium, mode)
  {
    if |funds| > 0 {
      FilterIdempotent(funds[1..], minPremium, mode);
      var r := FilterOpportunities(funds, minPremium, mode);
      if Eligible(funds[0], minPremium, mode) {
        assert r[1..] == FilterOpportunities(funds[1..], minPremium, mode);
      }
    }
  }

  /** A quote that passes a threshold also passes every lower one. */
  lemma EligibleMonotone(fund: FundItem, low: real, high: real, mode: string)
    requires low <= high && Eligible(fund, high, mode)
    ensures Eligible(fund, low, mode)
  {
  }

  /**
   * Raising the threshold only drops quotes: what is selected at a higher
   * threshold is a subsequence of what is selected at a lower one.
   */
  lemma {:induction false} FilterThresholdMonotone(funds: seq<FundItem>, low: real, high: real, mode: string)
    requires low <= high
    ensures IsSubsequence(FilterOpportunities(funds, high, mode), FilterOpportunities(funds, low, mode))
  {
    if |funds| > 0 {
      var f := funds[0];
      FilterThresholdMonotone(funds[1..], low, high, mode);
      var a := FilterOpportunities(funds[1..], high, mode);
      var b := FilterOpportunities(funds[1..], low, mode);
      if Eligible(f, high, mode) {
        EligibleMonotone(f, low, high, mode);
        assert ([f] + a)[1..] == a && ([f] + b)[1..] == b;
      } else if Eligible(f, low, mode) {
        assert ([f] + b)[1..] == b;
        if |a| > 0 {
          assert a[0] in a;
        }
      }
    }
  }
}
