/**
 * The per-account evaluation (`calculate_all_profits`, and the loop over
 * accounts in `main` of jisilu_profit_calculator.py). The source deep-copies
 * the selected quotes for each account before writing results onto them;
 * here every account's results are a fresh sequence computed from the
 * quotes and that account alone, so no account can see another's results.
 */
module Pipeline {
  import opened Funds
  import opened Ranking

  /** `calculate_all_profits`: each quote evaluated on its own, in input order. */
  function CalculateAll(funds: seq<FundItem>, account: Account, quantity: int): (r: seq<Evaluation>)
    ensures |r| == |funds|
    ensures forall i :: 0 <= i < |r| ==> r[i] == Evaluate(funds[i], account, quantity)
  {
    seq(|funds|, i requires 0 <= i < |funds| => Evaluate(funds[i], account, quantity))
  }

  /** `calculate_all_profits` returns the quotes it was given, in the same order, with the results attached. */
  lemma CalculateAllKeepsQuotes(funds: seq<FundItem>, account: Account, quantity: int)
    ensures |CalculateAll(funds, account, quantity)| == |funds|
    ensures forall i :: 0 <= i < |funds| ==> CalculateAll(funds, account, quantity)[i].fund == funds[i]
  {
  }

  /** One account's ranked results: its evaluations of the selected quotes, best profit first. */
  function AccountReport(opportunities: seq<FundItem>, account: Account, quantity: int): (r: seq<Evaluation>)
    ensures multiset(r) == multiset(CalculateAll(opportunities, account, quantity))
    ensures forall i, j :: 0 <= i < j < |r| ==> r[i].profit >= r[j].profit
    ensures StableFor(r, CalculateAll(opportunities, account, quantity), ByProfit)
  {
    SortByProfit(CalculateAll(opportunities, account, quantity), true)
  }

  /** The loop over accounts: one ranked report per account, in account order. */
  function RunAccounts(opportunities: seq<FundItem>, accounts: seq<Account>, quantity: int): (r: seq<seq<Evaluation>>)
    ensures |r| == |accounts|
    ensures forall i :: 0 <= i < |r| ==> r[i] == AccountReport(opportunities, accounts[i], quantity)
  {
    if |accounts| == 0 then []
    else [AccountReport(opportunities, accounts[0], quantity)] + RunAccounts(opportunities, accounts[1..], quantity)
  }

  /**
   * Isolation: an account's report does not depend on which other accounts
   * are evaluated, or in what order: it is the report that account gets
   * when evaluated alone. The source needs a deep copy per account for
   * this; here it holds because every function is pure, and it follows
   * directly from the contract of `RunAccounts`.
   */
  lemma AccountsIsolated(opportunities: seq<FundItem>, accounts: seq<Account>, others: seq<Account>, quantity: int, i: int, j: int)
    requires 0 <= i < |accounts| && 0 <= j < |others| && accounts[i] == others[j]
    ensures RunAccounts(opportunities, accounts, quantity)[i] == RunAccounts(opportunities, others, quantity)[j]
    ensures RunAccounts(opportunities, accounts, quantity)[i] == RunAccounts(opportunities, [accounts[i]], quantity)[0]
  {
  }
}
