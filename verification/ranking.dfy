/**
 * Ranking evaluated quotes (`sort_by_profit` and `sort_by_profit_rate` in
 * jisilu_profit_calculator.py). Python's `sorted(..., key=..., reverse=...)`
 * is stable in both directions: entries with equal keys keep their input
 * order. The model is an insertion sort with exactly that contract.
 */
module Ranking {
  import opened Funds

  /** The metric a ranking orders by. */
  datatype SortKey = ByProfit | ByProfitRate

  function KeyOf(e: Evaluation, key: SortKey): real {
    match key
    case ByProfit => e.profit
    case ByProfitRate => e.profitRate
  }

  /** `a` must come strictly before `b`: a larger key when descending, a smaller one when ascending. */
  predicate Precedes(a: Evaluation, b: Evaluation, key: SortKey, descending: bool) {
    if descending then KeyOf(a, key) > KeyOf(b, key) else KeyOf(a, key) < KeyOf(b, key)
  }

  /** No entry must come before its predecessor in `s`. */
  predicate Ordered(s: seq<Evaluation>, key: SortKey, descending: bool) {
    forall i :: 0 <= i < |s| - 1 ==> !Precedes(s[i + 1], s[i], key, descending)
  }

  /** The entries of `s` whose key is `v`, in order. */
  function WithKey(s: seq<Evaluation>, key: SortKey, v: real): (r: seq<Evaluation>)
    ensures |r| <= |s|
  {
    if |s| == 0 then []
    else if KeyOf(s[0], key) == v then [s[0]] + WithKey(s[1..], key, v)
    else WithKey(s[1..], key, v)
  }

  /** Stability: for every key value, the entries with that key appear in the same order in `r` as in `s`. */
  ghost predicate StableFor(r: seq<Evaluation>, s: seq<Evaluation>, key: SortKey) {
    forall v :: WithKey(r, key, v) == WithKey(s, key, v)
  }

  /** Puts `x` into `s` after the leading entries that precede it and before the rest. */
  function Insert(x: Evaluation, s: seq<Evaluation>, key: SortKey, descending: bool): (r: seq<Evaluation>)
    ensures multiset(r) == multiset(s) + multiset{x}
  {
    if |s| == 0 then [x]
    else if Precedes(s[0], x, key, descending) then
      assert s == [s[0]] + s[1..];
      [s[0]] + Insert(x, s[1..], key, descending)
    else [x] + s
  }

  /** Inserting into an ordered sequence keeps it ordered. */
  lemma {:induction false} InsertOrdered(x: Evaluation, s: seq<Evaluation>, key: SortKey, descending: bool)
    requires Ordered(s, key, descending)
    ensures Ordered(Insert(x, s, key, descending), key, descending)
  {
    var r := Insert(x, s, key, descending);
    if |s| > 0 && Precedes(s[0], x, key, descending) {
      var rest := Insert(x, s[1..], key, descending);
      InsertOrdered(x, s[1..], key, descending);
      assert r == [s[0]] + rest;
      assert rest[0] == x || rest[0] == s[1] by {
        if |s| == 1 {
          assert rest == [x];
        } else if !Precedes(s[1], x, key, descending) {
          assert rest == [x] + s[1..];
        }
      }
      forall i | 0 <= i < |r| - 1
        ensures !Precedes(r[i + 1], r[i], key, descending)
      {
        if i > 0 {
          assert r[i] == rest[i - 1] && r[i + 1] == rest[i];
        }
      }
    } else if |s| > 0 {
      forall i | 0 <= i < |r| - 1
        ensures !Precedes(r[i + 1], r[i], key, descending)
      {
        if i > 0 {
          assert r[i] == s[i - 1] && r[i + 1] == s[i];
        }
      }
    }
  }

  /** Inserting `x` puts it first among the entries that share its key. */
  lemma {:induction false} InsertWithKey(x: Evaluation, s: seq<Evaluation>, key: SortKey, descending: bool, v: real)
    ensures WithKey(Insert(x, s, key, descending), key, v)
            == if KeyOf(x, key) == v then [x] + WithKey(s, key, v) else WithKey(s, key, v)
  {
    var r := Insert(x, s, key, descending);
    if |s| == 0 {
      assert r == [x];
      assert r[1..] == [];
    } else if Precedes(s[0], x, key, descending) {
      InsertWithKey(x, s[1..], key, descending, v);
      assert r[1..] == Insert(x, s[1..], key, descending);
    } else {
      assert r[1..] == s;
    }
  }

  /** The stable sort of `s` by `key`. */
  function SortBy(s: seq<Evaluation>, key: SortKey, descending: bool): (r: seq<Evaluation>)
    ensures Ordered(r, key, descending)
    ensures multiset(r) == multiset(s)
    ensures StableFor(r, s, key)
  {
    if |s| == 0 then []
    else
      var rest := SortBy(s[1..], key, descending);
      assert s == [s[0]] + s[1..];
      var r := Insert(s[0], rest, key, descending);
      InsertOrdered(s[0], rest, key, descending);
      assert StableFor(r, s, key) by {
        forall v ensures WithKey(r, key, v) == WithKey(s, key, v) {
          InsertWithKey(s[0], rest, key, descending, v);
        }
      }
      r
  }

  /** An order that holds between neighbours holds between any two entries. */
  lemma {:induction false} OrderedPairs(s: seq<Evaluation>, key: SortKey, descending: bool, i: int, j: int)
    requires Ordered(s, key, descending)
    requires 0 <= i < j < |s|
    ensures if descending then KeyOf(s[i], key) >= KeyOf(s[j], key) else KeyOf(s[i], key) <= KeyOf(s[j], key)
    decreases j - i
  {
    if j > i + 1 {
      OrderedPairs(s, key, descending, i + 1, j);
    }
    assert !Precedes(s[i + 1], s[i], key, descending);
  }

  /** What `WithKey` selects comes from `s` and carries the key `v`. */
  lemma {:induction false} WithKeyMembers(s: seq<Evaluation>, key: SortKey, v: real, x: Evaluation)
    requires x in WithKey(s, key, v)
    ensures x in s && KeyOf(x, key) == v
  {
    if |s| > 0 {
      if KeyOf(s[0], key) == v && x == s[0] {
      } else {
        WithKeyMembers(s[1..], key, v, x);
      }
    }
  }

  /** The first entry is the first one selected for its own key. */
  lemma HeadIsSelected(s: seq<Evaluation>, key: SortKey)
    ensures |s| > 0 ==> WithKey(s, key, KeyOf(s[0], key)) == [s[0]] + WithKey(s[1..], key, KeyOf(s[0], key))
  {
  }

  /**
   * Two ordered sequences that hold, for every key value, the same entries
   * with that key in the same order are equal.
   */
  lemma {:induction false} OrderedStableUnique(a: seq<Evaluation>, b: seq<Evaluation>, key: SortKey, descending: bool)
    requires Ordered(a, key, descending) && Ordered(b, key, descending)
    requires forall v :: WithKey(a, key, v) == WithKey(b, key, v)
    ensures a == b
  {
    if |a| == 0 || |b| == 0 {
      // Neither can be empty alone: the other's first entry would be missing from its key's selection.
      if |a| > 0 {
        HeadIsSelected(a, key);
        assert false;
      } else if |b| > 0 {
        HeadIsSelected(b, key);
        assert false;
      }
    } else {
      var va, vb := KeyOf(a[0], key), KeyOf(b[0], key);
      assert va == vb by {
        // b[0] has a twin in a, so vb is a key of a, and a starts at a's extreme key.
        assert b[0] in WithKey(b, key, vb);
        WithKeyMembers(a, key, vb, b[0]);
        var i :| 0 <= i < |a| && a[i] == b[0];
        if i > 0 { OrderedPairs(a, key, descending, 0, i); }
        assert a[0] in WithKey(a, key, va);
        WithKeyMembers(b, key, va, a[0]);
        var j :| 0 <= j < |b| && b[j] == a[0];
        if j > 0 { OrderedPairs(b, key, descending, 0, j); }
      }
      assert a[0] == b[0] by {
        assert WithKey(a, key, va)[0] == a[0];
        assert WithKey(b, key, va)[0] == b[0];
      }
      forall v ensures WithKey(a[1..], key, v) == WithKey(b[1..], key, v) {
        var wa, wb := WithKey(a, key, v), WithKey(b, key, v);
        assert wa == wb;
        if v == va {
          assert wa[1..] == WithKey(a[1..], key, v);
          assert wb[1..] == WithKey(b[1..], key, v);
        }
      }
      OrderedStableUnique(a[1..], b[1..], key, descending);
      assert a == [a[0]] + a[1..] && b == [b[0]] + b[1..];
    }
  }

  /**
   * The ranking is determined by its contract: any ordering of `s` that is
   * sorted by `key` and stable is exactly `SortBy(s, key, descending)`.
   */
  lemma SortIsUnique(s: seq<Evaluation>, r: seq<Evaluation>, key: SortKey, descending: bool)
    requires Ordered(r, key, descending) && StableFor(r, s, key)
    ensures r == SortBy(s, key, descending)
  {
    var t := SortBy(s, key, descending);
    forall v ensures WithKey(r, key, v) == WithKey(t, key, v) {
      assert WithKey(r, key, v) == WithKey(s, key, v);
    }
    OrderedStableUnique(r, t, key, descending);
  }

  /** `sort_by_profit`: by profit, best first when `descending`. */
  function SortByProfit(s: seq<Evaluation>, descending: bool): (r: seq<Evaluation>)
    ensures multiset(r) == multiset(s)
    ensures forall i, j :: 0 <= i < j < |r| ==> (if descending then r[i].profit >= r[j].profit else r[i].profit <= r[j].profit)
    ensures StableFor(r, s, ByProfit)
  {
    var r := SortBy(s, ByProfit, descending);
    forall i, j | 0 <= i < j < |r|
      ensures if descending then r[i].profit >= r[j].profit else r[i].profit <= r[j].profit
    {
      OrderedPairs(r, ByProfit, descending, i, j);
    }
    r
  }

  /** `sort_by_profit_rate`: by profit rate, best first when `descending`. */
  function SortByProfitRate(s: seq<Evaluation>, descending: bool): (r: seq<Evaluation>)
    ensures multiset(r) == multiset(s)
    ensures forall i, j :: 0 <= i < j < |r| ==> (if descending then r[i].profitRate >= r[j].profitRate else r[i].profitRate <= r[j].profitRate)
    ensures StableFor(r, s, ByProfitRate)
  {
    var r := SortBy(s, ByProfitRate, descending);
    forall i, j | 0 <= i < j < |r|
      ensures if descending then r[i].profitRate >= r[j].profitRate else r[i].profitRate <= r[j].profitRate
    {
      OrderedPairs(r, ByProfitRate, descending, i, j);
    }
    r
  }
}
