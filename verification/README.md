# LOF arbitrage calculator — a Dafny model

This project models the calculating core of a small command-line tool. The tool
reads quotes for listed open-ended funds (LOFs) from a market-data feed. It
selects the funds whose exchange price diverges from the net asset value, and
computes what one subscribe-then-sell arbitrage trade would earn for each
brokerage account. It then ranks the funds by that profit.

The model covers:

- **Decimal text** (`DecimalText`). Python's `Decimal(str)` over exact
  rationals. Surrounding whitespace is ignored, using the same whitespace set
  as `str.strip()`. What is left must be an optional sign, then digits with at
  most one point and at least one digit. Anything else is a failed conversion
  (`None`). The literal grammar comes with its rendering, and the project
  proves both round trips between literals and text.
- **Fund records and the trade** (`Funds`):
  - the `Account` and `FundItem` records;
  - the subscription-fee reader `parse_apply_fee`: `"0.12%"` reads as 0.0012,
    `"0.0012"` as itself, and unreadable text as the 0.12% default;
  - the premium-arbitrage calculation `calculate_arbitrage_profit`:
    subscribe at the net asset value plus the fee, sell at the exchange price
    less a commission with a floor and a transfer fee, and report the profit
    as a percentage of the cost.
- **Field coercion** (`Fetcher`). `safe_decimal`: a missing field, `-` or the
  empty string gives the default. Otherwise `%` and `,` are removed, the text
  is trimmed and read as a decimal, with the default on failure.
- **Selection** (`Opportunities`). `filter_arbitrage_opportunities` keeps a
  fund when its subscription status contains "开放" (open) or "限大额" (open
  with a cap on large orders), and its divergence passes the threshold in the
  chosen mode, boundary included. The modes are `premium` (negative
  divergence) and `discount` (positive divergence).
- **Ranking** (`Ranking`). `sort_by_profit` and `sort_by_profit_rate` are
  Python's stable `sorted`, both ascending and descending. The sort is stated
  as an ordered permutation that keeps equal keys in input order, and the
  project proves that this contract determines the result uniquely.
- **The per-account run** (`Pipeline`). `calculate_all_profits` and the loop
  over accounts in `main`: each account gets its own evaluation of the
  selected funds, ranked by profit.

Design decisions:

- Python mutates the `FundItem` objects in place. The model is pure: an
  evaluation returns a fresh `Evaluation` record that carries the quote and
  the four computed fields.
- The source deep-copies the selected quotes for every account. In the model
  this becomes a fresh result sequence per account, and `AccountsIsolated`
  states that an account's report does not depend on the other accounts.
- For a fund with net asset value 1, price 1.05 and fee 0.12%, traded in
  10000 shares, the code computes a profit of 483 on a cost of 10012, a rate
  of 483 / 10012 × 100 ≈ 4.8242%. `Funds.WorkedExample` proves
  `profitRate == 48300/10012`.

## Model

| member | source | states |
|---|---|---|
| DecimalText.Trim | jisilu_profit_calculator.py:51 | the stripped text neither starts nor ends with whitespace |
| DecimalText.TrimIsMiddle | jisilu_profit_calculator.py:51 | the input is the stripped text with a run of whitespace before it and one after it: only whitespace is cut, only from the ends |
| DecimalText.TrimKeepsCount | jisilu_profit_calculator.py:51 | stripping keeps every occurrence of every non-space character |
| DecimalText.TrimIdempotent | jisilu_profit_calculator.py:51 | stripping twice is stripping once |
| DecimalText.RemoveAll | jisilu_profit_calculator.py:54 | `replace('%', '')` leaves no occurrence of the character and keeps every other character's count |
| DecimalText.RemoveAllConcat | jisilu_profit_calculator.py:54 | removing a character from a concatenation removes it from each part |
| DecimalText.RemoveAllAbsent | jisilu_profit_calculator.py:54 | text without the character is left unchanged |
| DecimalText.ParseDecimal | jisilu_profit_calculator.py:56 | Python's `Decimal(str)` over exact rationals; its contract is stated by `DecimalText.ParseMatchesGrammar` |
| DecimalText.LiteralOf | jisilu_profit_calculator.py:56 | every text splits into sign, whole digits and optional fraction, and rendering that split gives the text back |
| DecimalText.LiteralOfRender | jisilu_profit_calculator.py:56 | reading the text of a well-formed literal gives that literal back |
| DecimalText.RenderAlphabet | jisilu_profit_calculator.py:53-56 | the text of a well-formed literal holds no character other than signs, digits and the point, so no `%` |
| DecimalText.RenderParses | jisilu_profit_calculator.py:56 | `Decimal` of a well-formed literal's text is the number the literal denotes |
| DecimalText.ParseIgnoresSpace | jisilu_profit_calculator.py:51-56 | `Decimal` of stripped text equals `Decimal` of the text itself |
| DecimalText.ParseMatchesGrammar | jisilu_profit_calculator.py:56 | a text converts iff, once stripped, it is a well-formed literal, and then it converts to that literal's value |
| Funds.FeeRate | jisilu_profit_calculator.py:48-58 | unreadable fee text gives the 0.12% default |
| Funds.FeeRateOfFraction | jisilu_profit_calculator.py:56 | a fee written without `%` is taken as the fraction it spells |
| Funds.FeeRateOfPercent | jisilu_profit_calculator.py:53-54 | a fee written `X%` is X divided by 100 |
| Funds.PercentAgreesWithFraction | jisilu_profit_calculator.py:53-56 | `X%` and a fraction worth X/100 give the same rate |
| Funds.FeeRateCases | jisilu_profit_calculator.py:48-58 | every fee text either is a literal after stripping and `%` removal (value, divided by 100 in the percent form) or reads as the default |
| Funds.FeeExample | jisilu_profit_calculator.py:53-54 | `"0.12%"` reads as 0.0012 |
| Funds.Commission | jisilu_profit_calculator.py:86-89 | the commission is the larger of the proportional commission and the minimum |
| Funds.TradeCosts | jisilu_profit_calculator.py:79-89 | the subscribed amount is nav × quantity, the fee is that amount times the rate, the cost is their sum (nav × quantity × (1 + fee)), the sale is price × quantity, the commission as above |
| Funds.RateOf | jisilu_profit_calculator.py:96-97 | the rate applied to the cost gives 100 × the profit |
| Funds.Settle | jisilu_profit_calculator.py:79-99 | profit is quantity × (price − nav × (1 + fee)) less commission and transfer fee; the rate is 0 when the cost is not positive, and otherwise profit as a percentage of the cost |
| Funds.Evaluate | jisilu_profit_calculator.py:60-101 | the trade is settled at the rate read from the quote's own fee text |
| Funds.ProfitRateSign | jisilu_profit_calculator.py:96-97 | with a positive cost the profit rate has the sign of the profit, and is 0 exactly when the profit is |
| Funds.ProfitNeedsPremium | jisilu_profit_calculator.py:79-92 | with a positive quantity and non-negative minimum commission and transfer fee, a positive profit requires the price to exceed nav × (1 + fee) |
| Funds.CommissionGrowth | jisilu_profit_calculator.py:86-89 | for a commission rate between 0 and 1, between two sale amounts the commission grows by between 0 and the difference |
| Funds.ProfitMonotoneInPrice | jisilu_profit_calculator.py:85-92 | for a non-negative quantity and a commission rate between 0 and 1, a higher exchange price never lowers the profit |
| Funds.WorkedExample | jisilu_profit_calculator.py:60-101 | nav 1, price 1.05, fee 0.12%, 10000 shares: cost 10012, commission 5, profit 483, rate 48300/10012 |
| Funds.SmallTradeExample | jisilu_profit_calculator.py:86-92 | on one share the commission floor of 5 dominates and the profit is −4.9512 |
| Fetcher.Cleaned | jisilu_profit_calculator.py:120 | the cleaned text holds no `%` and no `,`, is already stripped, and is the mark-free text with only leading and trailing whitespace cut, every other character kept in order |
| Fetcher.ReadCleaned | jisilu_profit_calculator.py:121 | empty or unreadable cleaned text gives the default; non-empty text that converts gives its decimal value |
| Fetcher.SafeDecimal | jisilu_profit_calculator.py:114-123 | a missing field, `-` or the empty string give the default |
| Fetcher.DashDoesNotParse | jisilu_profit_calculator.py:118 | a lone `-` is not a decimal literal |
| Fetcher.DashReadsAsDefault | jisilu_profit_calculator.py:118-121 | `-` survives cleaning and reads as the default |
| Fetcher.CleanedIgnoresMark | jisilu_profit_calculator.py:120 | inserting a `%` or `,` anywhere does not change the cleaned text |
| Fetcher.SafeDecimalReadsCleaned | jisilu_profit_calculator.py:118-123 | present text reads as its cleaned text does |
| Fetcher.SafeDecimalIgnoresMarks | jisilu_profit_calculator.py:120-121 | inserting a `%` or `,` anywhere does not change the value read |
| Fetcher.CleanedLiteral | jisilu_profit_calculator.py:120 | cleaning leaves a well-formed literal's text unchanged |
| Fetcher.SafeDecimalOfLiteral | jisilu_profit_calculator.py:120-121 | a well-formed literal's text reads as its value |
| Fetcher.SafeDecimalCases | jisilu_profit_calculator.py:114-123 | every present field either reads as the literal its cleaned text spells or as the default |
| Opportunities.FilterOpportunities | jisilu_profit_calculator.py:173-200 | the result is the eligible quotes in input order (a subsequence, each kept quote eligible, each eligible quote kept with its multiplicity); any mode other than premium or discount selects nothing |
| Opportunities.EligibleMonotone | jisilu_profit_calculator.py:191-198 | a quote that passes a threshold passes every lower one |
| Opportunities.FilterIdempotent | jisilu_profit_calculator.py:185-200 | filtering the filtered list again changes nothing |
| Opportunities.FilterThresholdMonotone | jisilu_profit_calculator.py:191-198 | what a higher threshold selects is a subsequence of what a lower one selects |
| Ranking.Insert | jisilu_profit_calculator.py:210-217 | insertion adds exactly the one entry |
| Ranking.InsertOrdered | jisilu_profit_calculator.py:210-217 | inserting into an ordered list keeps it ordered |
| Ranking.InsertWithKey | jisilu_profit_calculator.py:210-217 | insertion keeps entries with equal keys in input order |
| Ranking.SortBy | jisilu_profit_calculator.py:210-217 | the result is ordered by the key, a permutation of the input, and stable |
| Ranking.OrderedPairs | jisilu_profit_calculator.py:210-217 | neighbour order extends to any two entries |
| Ranking.WithKeyMembers | jisilu_profit_calculator.py:210-217 | an entry selected for a key value is in the input and has that key |
| Ranking.OrderedStableUnique | jisilu_profit_calculator.py:210-217 | two ordered sequences with the same entries per key, in the same order, are equal |
| Ranking.SortIsUnique | jisilu_profit_calculator.py:210-217 | every ordered, stable rearrangement of the input is the sort's result |
| Ranking.SortByProfit | jisilu_profit_calculator.py:210-212 | a permutation ordered by profit (non-increasing when descending), equal profits in input order |
| Ranking.SortByProfitRate | jisilu_profit_calculator.py:215-217 | a permutation ordered by profit rate (non-increasing when descending), equal rates in input order |
| Pipeline.CalculateAll | jisilu_profit_calculator.py:203-207 | one evaluation per quote, in input order, each from that quote and the account alone |
| Pipeline.CalculateAllKeepsQuotes | jisilu_profit_calculator.py:203-207 | the result lists the quotes it was given, one each, in the same order |
| Pipeline.AccountReport | jisilu_profit_calculator.py:390-396 | an account's report is its evaluations ranked best profit first, equal profits kept in selection order |
| Pipeline.RunAccounts | jisilu_profit_calculator.py:388-396 | one report per account, in account order, each computed from the shared selection and that account |
| Pipeline.AccountsIsolated | jisilu_profit_calculator.py:388-396 | an account's report is the same whatever other accounts run with it |

## Left out

- Fetching quotes over HTTP, JSON decoding, console output, the Excel export and `format_decimal` are I/O or presentation and are not modelled.
- The configuration constants and control flow of `main` are not modelled, other than the loop over accounts.
- Decimal context effects are not modelled, because the model uses exact rationals. These include the 28-digit precision and rounding of division, so the profit rate is exact in the model.
- Decimal literals with exponents, `NaN`, `Infinity`, underscores or non-ASCII digits are not part of the grammar. The model reads them as failed conversions, which gives the default.
- Feed values that are not strings (JSON numbers, `null` in a text field) are not modelled; the model takes text or a missing value. `parse_apply_fee` and `safe_decimal` pass such values through `str()` first. `filter_arbitrage_opportunities` does not: it applies `in` directly to `apply_status`, so a `null` status there raises `TypeError` and stops the run. The model has no such failure, because its status is always text.
- Discount-mode arbitrage has its own cash flow: buy on the exchange, then redeem at the net asset value. That formula is not modelled; discount mode only selects quotes, as in the source.
- Default arguments are not modelled; every parameter is explicit. The defaults are `min_premium=1.0` and `mode="premium"` for the filter, `quantity=10000` for the calculation, `descending=True` for the sorts, `default=0` for `safe_decimal` and `transfer_fee=0` for accounts. `main` passes the filter, calculation, sort and account values explicitly. The exception is `fetch_lof_data`, which calls `safe_decimal` without a default and so relies on 0; in the model the default is a parameter, and that caller corresponds to passing 0.0.
- `quantity` is an arbitrary integer, as in the source. Nothing restricts it to positive values or to multiples of a lot.
- DecimalText.Trim: its own contract states only that the result has no whitespace at either end. That the rest of the input is kept unchanged is proved separately in `DecimalText.TrimIsMiddle`, because a quantified postcondition on `Trim` would burden every proof that reads a decimal.
- Funds.FeeRate: its own contract covers only the default case. The full two-case characterisation is `Funds.FeeRateCases`.
- Fetcher.SafeDecimal: its own contract covers only the default cases. The full characterisation is `Fetcher.SafeDecimalCases`.
