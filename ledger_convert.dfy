/** `convert` of data/converter.ts: from a validated ledger to the summary, the
    income and expense transaction lists and the category flows. */
module LedgerConvert {
  import opened Wrappers
  import opened LedgerTypes
  import opened LedgerSums
  import opened LedgerTree
  import opened LedgerValidate
  import opened LedgerAggregate

  /** The transactions booked against an income category, in input order. */
  function IncomeTransactions(d: InputData): seq<InputTransaction>
  {
    TxsIn(d.transactions, DirectionIds(d.categories, INCOME))
  }

  /** The transactions booked against an expense category, in input order. */
  function ExpenseTransactions(d: InputData): seq<InputTransaction>
  {
    TxsIn(d.transactions, DirectionIds(d.categories, EXPENSE))
  }

  /** `transactions.find(t => t.category_id === id)`: the first transaction
      booked against `id`. */
  function FirstWithCategory(txs: seq<InputTransaction>, id: string): (r: Option<nat>)
    ensures r.Some? ==> r.value < |txs| && txs[r.value].categoryId == id
    ensures r.Some? ==> forall j :: 0 <= j < r.value ==> txs[j].categoryId != id
    ensures r.None? <==> forall t :: t in txs ==> t.categoryId != id
  {
    if txs == [] then None
    else if txs[0].categoryId == id then Some(0)
    else match FirstWithCategory(txs[1..], id)
      case None => None
      case Some(i) => Some(i + 1)
  }

  /** The value of `balanceTransaction`, the first transaction booked against
      the first category named as the carry-over to the next year; 0 without one. */
  function BalanceValue(d: InputData): int
  {
    match FirstNamed(d.categories, NEXT_YEAR)
    case None => 0
    case Some(k) =>
      match FirstWithCategory(d.transactions, d.categories[k].id)
      case None => 0
      case Some(i) => d.transactions[i].value
  }

  /** The `summary` object. */
  function SummaryOf(d: InputData): Summary
  {
    var balance := BalanceValue(d);
    Summary(TotalIncome(d), TotalExpense(d) - balance, balance, d.year)
  }

  /** The entry of the income or expense list for transaction `t`. */
  function ViewOf(names: map<string, string>, t: InputTransaction, total: int): TransactionView
    requires total != 0 && t.categoryId in names
  {
    TransactionView(t.id, t.name, t.date, t.value, names[t.categoryId], (t.value as real * 100.0) / total as real)
  }

  /** `transactions.map(...)`: one entry per transaction, in the same order. */
  function Views(names: map<string, string>, txs: seq<InputTransaction>, total: int): (vs: seq<TransactionView>)
    requires total != 0 && forall t :: t in txs ==> t.categoryId in names
    ensures |vs| == |txs|
  {
    seq(|txs|, i requires 0 <= i < |txs| => ViewOf(names, txs[i], total))
  }

  /** Sum of the percentages of a list of entries. */
  function SumPercent(vs: seq<TransactionView>): real
  {
    if vs == [] then 0.0 else SumPercent(vs[..|vs| - 1]) + vs[|vs| - 1].percentage
  }

  /** Sum of the values of the flows at the positions `cs`. */
  function FlowTotal(flows: seq<Flow>, cs: seq<nat>): real
    requires forall i :: 0 <= i < |cs| ==> cs[i] < |flows|
  {
    if cs == [] then 0.0 else FlowTotal(flows, cs[..|cs| - 1]) + flows[cs[|cs| - 1]].value
  }

  // ---------------------------------------------------------------------------
  // Facts about a validated ledger

  /** A category id that occurs is a key of the id table. */
  lemma IdIsIndexed(cats: seq<Category>, id: string)
    requires HasId(cats, id)
    ensures id in IndexById(cats)
  {
    var k :| 0 <= k < |cats| && cats[k].id == id;
    IndexCovers(cats, k);
  }

  /** In a valid ledger every transaction falls in exactly one of the income
      and expense lists. */
  lemma DirectionsPartition(d: InputData)
    requires Validate(d).Pass? && UniqueIds(d.categories)
    ensures forall t :: t in d.transactions ==>
      (t.categoryId in DirectionIds(d.categories, INCOME) <==> t.categoryId !in DirectionIds(d.categories, EXPENSE))
  {
    var cats := d.categories;
    assert StageHolds(d, 1) && StageHolds(d, 8);
    forall t | t in d.transactions
      ensures t.categoryId in DirectionIds(cats, INCOME) <==> t.categoryId !in DirectionIds(cats, EXPENSE)
    {
      assert TransactionWellFormed(cats, t);
      var k :| 0 <= k < |cats| && cats[k].id == t.categoryId;
      assert CategoryWellFormed(cats[k]);
      if cats[k].direction == INCOME {
        assert t.categoryId in DirectionIds(cats, INCOME);
      } else {
        assert t.categoryId in DirectionIds(cats, EXPENSE);
      }
    }
  }

  /** Every transaction of the income and expense lists has a known category. */
  lemma ListedAreIndexed(d: InputData)
    requires Validate(d).Pass?
    ensures forall t :: t in IncomeTransactions(d) + ExpenseTransactions(d) ==> t.categoryId in IndexById(d.categories)
  {
    assert StageHolds(d, 8);
    forall t | t in IncomeTransactions(d) + ExpenseTransactions(d)
      ensures t.categoryId in IndexById(d.categories)
    {
      assert t in d.transactions;
      assert TransactionWellFormed(d.categories, t);
      IdIsIndexed(d.categories, t.categoryId);
    }
  }

  /** A valid ledger has positive income and expense totals, so the percentage
      divisions are defined. */
  lemma TotalsPositive(d: InputData)
    requires Validate(d).Pass?
    ensures TotalIncome(d) > 0 && TotalExpense(d) > 0
  {
    var cats := d.categories;
    assert StageHolds(d, 1) && StageHolds(d, 4) && StageHolds(d, 6) && StageHolds(d, 8);
    var k0 := FirstNamed(cats, PREVIOUS_YEAR).value;
    var carried := TxsWithCategory(d.transactions, cats[k0].id);
    assert |carried| == 1 && carried[0] in carried;
    var t := carried[0];
    assert TransactionWellFormed(cats, t);
    var k :| 0 <= k < |cats| && cats[k].id == t.categoryId;
    assert CategoryWellFormed(cats[k]);
    assert forall u :: u in IncomeTransactions(d) ==> u in d.transactions;
    assert forall u :: u in ExpenseTransactions(d) ==> u in d.transactions;
    if cats[k].direction == INCOME {
      assert t in IncomeTransactions(d);
      TotalAtLeastMember(IncomeTransactions(d), t);
    } else {
      assert t in ExpenseTransactions(d);
      TotalAtLeastMember(ExpenseTransactions(d), t);
    }
  }

  /** The first transaction with category `id` heads the list of all of them. */
  lemma {:induction false} FirstHeadsFilter(txs: seq<InputTransaction>, id: string)
    requires FirstWithCategory(txs, id).Some?
    ensures var i := FirstWithCategory(txs, id).value;
      TxsWithCategory(txs, id) != [] && TxsWithCategory(txs, id)[0] == txs[i]
  {
    var i := FirstWithCategory(txs, id).value;
    var before, at, after := txs[..i], [txs[i]], txs[i + 1..];
    assert txs == before + at + after;
    TxsInConcat(before + at, after, [id]);
    TxsInConcat(before, at, [id]);
    assert TxsIn(at, [id]) == TxsIn([], [id]) + [txs[i]];
  }

  /** The summary of a valid ledger: the balance is the value of its only
      carry-over-to-next-year transaction, it is positive, and income equals
      expense plus balance. */
  lemma SummaryOfValidLedger(d: InputData)
    requires Validate(d).Pass?
    ensures var s := SummaryOf(d);
      && s.income == TotalIncome(d)
      && s.income == s.expense + s.balance
      && s.balance > 0
      && s.year == d.year
    ensures var k := FirstNamed(d.categories, NEXT_YEAR).value;
      var carried := TxsWithCategory(d.transactions, d.categories[k].id);
      |carried| == 1 && SummaryOf(d).balance == carried[0].value
  {
    assert StageHolds(d, 3) && StageHolds(d, 5) && StageHolds(d, 6) && StageHolds(d, 8);
    var k := FirstNamed(d.categories, NEXT_YEAR).value;
    var id := d.categories[k].id;
    var carried := TxsWithCategory(d.transactions, id);
    assert |carried| == 1 && carried[0] in carried;
    assert carried[0] in d.transactions;
    FirstHeadsFilter(d.transactions, id);
    assert carried[0] in d.transactions;
    assert TransactionWellFormed(d.categories, carried[0]);
  }

  /** An entry copies its transaction's fields, names the category the
      transaction is booked against, and gives the value as a percentage of
      the list's total. */
  lemma {:induction false} ViewFields(cats: seq<Category>, txs: seq<InputTransaction>, total: int, i: nat, k: nat)
    requires UniqueIds(cats) && total != 0
    requires forall t :: t in txs ==> t.categoryId in NameById(cats)
    requires i < |txs| && k < |cats| && cats[k].id == txs[i].categoryId
    ensures var v := Views(NameById(cats), txs, total)[i];
      && v.id == txs[i].id && v.name == txs[i].name && v.date == txs[i].date && v.value == txs[i].value
      && v.category == cats[k].name
    ensures Views(NameById(cats), txs, total)[i].percentage * total as real == txs[i].value as real * 100.0
  {
    var names := NameById(cats);
    ViewAt(names, txs, total, i);
    IndexOfUnique(cats, k);
  }

  /** The `i`-th entry of a list for any name table. */
  lemma ViewAt(names: map<string, string>, txs: seq<InputTransaction>, total: int, i: nat)
    requires total != 0 && forall t :: t in txs ==> t.categoryId in names
    requires i < |txs|
    ensures var v := Views(names, txs, total)[i];
      && v.id == txs[i].id && v.name == txs[i].name && v.date == txs[i].date && v.value == txs[i].value
      && v.category == names[txs[i].categoryId]
      && v.percentage * total as real == txs[i].value as real * 100.0
  {
    var v := Views(names, txs, total)[i];
    assert v == ViewOf(names, txs[i], total);
    DivideThenScale(v.percentage, txs[i].value as real * 100.0, total as real);
  }

  /** A quotient times its divisor is the dividend. */
  lemma DivideThenScale(q: real, a: real, b: real)
    requires b != 0.0 && q == a / b
    ensures q * b == a
  {
  }

  /** Counting with `SumOf`: one per transaction. */
  lemma {:induction false} CountIsLength(txs: seq<InputTransaction>)
    ensures SumOf(txs, t => 1) == |txs|
  {
    if txs != [] {
      CountIsLength(txs[..|txs| - 1]);
    }
  }

  /** In a valid ledger the income and expense lists split the transactions:
      each transaction is in exactly one of them, and together they are as
      many as the transactions. */
  lemma ListsPartition(d: InputData)
    requires Validate(d).Pass? && UniqueIds(d.categories)
    ensures forall t :: t in d.transactions ==> (t in IncomeTransactions(d) <==> t !in ExpenseTransactions(d))
    ensures forall t :: t in IncomeTransactions(d) + ExpenseTransactions(d) ==> t in d.transactions
    ensures |IncomeTransactions(d)| + |ExpenseTransactions(d)| == |d.transactions|
  {
    DirectionsPartition(d);
    SumOfPartition(d.transactions, DirectionIds(d.categories, INCOME), DirectionIds(d.categories, EXPENSE), t => 1);
    CountIsLength(d.transactions);
    CountIsLength(IncomeTransactions(d));
    CountIsLength(ExpenseTransactions(d));
  }

  lemma SharesAdd(a: real, v: real, n: real)
    requires n != 0.0
    ensures (a * 100.0) / n + (v * 100.0) / n == ((a + v) * 100.0) / n
  {
  }

  /** The percentages of a list sum to 100 times its share of `total`. */
  lemma {:induction false} PercentScaled(names: map<string, string>, txs: seq<InputTransaction>, total: int)
    requires total != 0 && forall t :: t in txs ==> t.categoryId in names
    ensures SumPercent(Views(names, txs, total)) == (Total(txs) as real * 100.0) / total as real
    decreases |txs|
  {
    if txs != [] {
      var init := txs[..|txs| - 1];
      var vs := Views(names, txs, total);
      assert vs[..|vs| - 1] == Views(names, init, total);
      PercentScaled(names, init, total);
      SharesAdd(Total(init) as real, txs[|txs| - 1].value as real, total as real);
    }
  }

  /** The percentages of the income list, or of the expense list, add up to 100. */
  lemma PercentagesSumTo100(names: map<string, string>, txs: seq<InputTransaction>)
    requires Total(txs) != 0 && forall t :: t in txs ==> t.categoryId in names
    ensures SumPercent(Views(names, txs, Total(txs))) == 100.0
  {
    PercentScaled(names, txs, Total(txs));
    var x := Total(txs) as real;
    assert (x * 100.0) / x == 100.0;
  }

  /** The upward pass over the income list followed by the expense list gives
      every category the subtree total over all transactions. */
  lemma SubtreeOverLists(d: InputData, k: nat)
    requires Validate(d).Pass? && UniqueIds(d.categories)
    ensures SubtreeTotal(d.categories, IncomeTransactions(d) + ExpenseTransactions(d), k)
      == SubtreeTotal(d.categories, d.transactions, k)
  {
    DirectionsPartition(d);
    SumOfConcat(IncomeTransactions(d), ExpenseTransactions(d), t => Contribution(d.categories, k, t));
    SumOfPartition(d.transactions, DirectionIds(d.categories, INCOME), DirectionIds(d.categories, EXPENSE),
      t => Contribution(d.categories, k, t));
  }

  /** The flow total of categories equals their subtree total when each flow
      holds its category's subtree total. */
  lemma {:induction false} FlowTotalOfSubtrees(cats: seq<Category>, txs: seq<InputTransaction>, flows: seq<Flow>, cs: seq<nat>)
    requires forall i :: 0 <= i < |cs| ==> cs[i] < |flows| && flows[cs[i]].value == SubtreeTotal(cats, txs, cs[i]) as real
    ensures FlowTotal(flows, cs) == ChildrenTotal(cats, txs, cs) as real
    decreases |cs|
  {
    if cs != [] {
      FlowTotalOfSubtrees(cats, txs, flows, cs[..|cs| - 1]);
    }
  }

  /** The income list followed by the expense list: the order of the upward pass. */
  function Listed(d: InputData): seq<InputTransaction>
  {
    IncomeTransactions(d) + ExpenseTransactions(d)
  }

  /** What the upward pass leaves in the flows of a valid ledger: the subtree
      total over all transactions below a category with a parent, and the
      income total, which equals the expense total, at the root. */
  lemma FlowValues(d: InputData, flows: seq<Flow>)
    requires Validate(d).Pass? && UniqueIds(d.categories) && Rooted(d.categories)
    requires |flows| == |d.categories|
    requires forall k :: 0 <= k < |d.categories| && FirstRoot(d.categories) != Some(k) ==>
      flows[k].value == SubtreeTotal(d.categories, Listed(d), k) as real
    requires forall r :: FirstRoot(d.categories) == Some(r) ==>
      flows[r].value == SubtreeTotal(d.categories, Listed(d), r) as real / 2.0
    ensures forall k :: 0 <= k < |d.categories| && HasParent(d.categories[k]) ==>
      flows[k].value == SubtreeTotal(d.categories, d.transactions, k) as real
    ensures forall k :: 0 <= k < |d.categories| && !HasParent(d.categories[k]) ==>
      flows[k].value == TotalIncome(d) as real && flows[k].value == TotalExpense(d) as real
  {
    var cats := d.categories;
    OnlyRoot(d);
    var r := FirstRoot(cats).value;
    forall k | 0 <= k < |cats| && HasParent(cats[k])
      ensures flows[k].value == SubtreeTotal(cats, d.transactions, k) as real
    {
      SubtreeOverLists(d, k);
    }
    RootTotal(d, r);
  }

  /** A valid ledger has one category without parent, and `flows.find` finds it. */
  lemma OnlyRoot(d: InputData)
    requires Validate(d).Pass?
    ensures FirstRoot(d.categories).Some?
    ensures forall k :: 0 <= k < |d.categories| ==> (!HasParent(d.categories[k]) <==> FirstRoot(d.categories) == Some(k))
  {
    var cats := d.categories;
    assert StageHolds(d, 7);
    var r := Roots(cats)[0];
    assert Roots(cats) == [r] && r in Roots(cats);
    forall k | 0 <= k < |cats| && !HasParent(cats[k])
      ensures k == r
    {
      assert k in Roots(cats);
    }
  }

  /** Before halving, the root's flow holds income and expense together. */
  lemma RootTotal(d: InputData, r: nat)
    requires Validate(d).Pass? && Rooted(d.categories) && FirstRoot(d.categories) == Some(r)
    ensures SubtreeTotal(d.categories, Listed(d), r) == TotalIncome(d) + TotalExpense(d)
    ensures TotalIncome(d) == TotalExpense(d)
    ensures Roots(d.categories) == [r]
  {
    var cats := d.categories;
    assert StageHolds(d, 6) && StageHolds(d, 7);
    assert r in Roots(cats);
    assert Roots(cats) == [Roots(cats)[0]] && Roots(cats)[0] in Roots(cats);
    ListedAreIndexed(d);
    RootCollectsAll(cats, Listed(d), r);
    SumOfConcat(IncomeTransactions(d), ExpenseTransactions(d), Value);
  }

  /** Every transaction of a valid ledger is booked against a known leaf. */
  lemma BookedOnLeaves(d: InputData)
    requires Validate(d).Pass?
    ensures forall t :: t in d.transactions ==> t.categoryId in LeafIds(d.categories)
    ensures forall t :: t in d.transactions ==> t.categoryId in IndexById(d.categories)
  {
    assert StageHolds(d, 8);
    forall t | t in d.transactions
      ensures t.categoryId in LeafIds(d.categories) && t.categoryId in IndexById(d.categories)
    {
      assert TransactionWellFormed(d.categories, t);
      IdIsIndexed(d.categories, t.categoryId);
    }
  }

  /** Subtree totals of a valid ledger add up along the tree: a category
      with children holds the sum of its children's totals. */
  lemma {:induction false} SubtreesAddUp(d: InputData, k: nat)
    requires Validate(d).Pass? && UniqueIds(d.categories) && Rooted(d.categories)
    requires k < |d.categories| && Children(d.categories, k) != []
    ensures SubtreeTotal(d.categories, d.transactions, k) == ChildrenTotal(d.categories, d.transactions, Children(d.categories, k))
  {
    BookedOnLeaves(d);
    InnerIsSumOfChildren(d.categories, d.transactions, k);
  }

  /** The root of a single-rooted tree totals the two sides of a partition
      of the transactions together. */
  lemma {:induction false} RootTotalsBothSides(cats: seq<Category>, txs: seq<InputTransaction>, r: nat, left: seq<string>, right: seq<string>)
    requires Rooted(cats) && Roots(cats) == [r]
    requires forall t :: t in txs ==> t.categoryId in IndexById(cats)
    requires forall t :: t in txs ==> (t.categoryId in left <==> t.categoryId !in right)
    ensures SubtreeTotal(cats, txs, r) == Total(TxsIn(txs, left)) + Total(TxsIn(txs, right))
  {
    RootCollectsAll(cats, txs, r);
    SumOfPartition(txs, left, right, Value);
  }

  /** A valid ledger has exactly one category without parent, and its income
      and expense totals agree. */
  lemma SingleRoot(d: InputData, r: nat)
    requires Validate(d).Pass?
    requires r < |d.categories| && !HasParent(d.categories[r])
    ensures Roots(d.categories) == [r]
    ensures TotalIncome(d) == TotalExpense(d)
  {
    assert StageHolds(d, 6) && StageHolds(d, 7);
    assert r in Roots(d.categories);
    assert Roots(d.categories)[0] in Roots(d.categories);
  }

  /** The root of a valid ledger totals income and expense together, that is
      twice the income. */
  lemma {:induction false} RootIsTwiceIncome(d: InputData, r: nat)
    requires Validate(d).Pass? && UniqueIds(d.categories) && Rooted(d.categories)
    requires r < |d.categories| && !HasParent(d.categories[r])
    ensures SubtreeTotal(d.categories, d.transactions, r) == 2 * TotalIncome(d)
  {
    SingleRoot(d, r);
    BookedOnLeaves(d);
    DirectionsPartition(d);
    RootTotalsBothSides(d.categories, d.transactions, r, DirectionIds(d.categories, INCOME), DirectionIds(d.categories, EXPENSE));
  }

  /** The flows `convert` returns for a valid ledger add up along the tree: a
      category with children and a parent holds the sum of its children's
      flows, and the root holds half of that sum. */
  lemma {:induction false} FlowsAddUp(d: InputData, flows: seq<Flow>, k: nat)
    requires Validate(d).Pass? && UniqueIds(d.categories) && Rooted(d.categories)
    requires |flows| == |d.categories|
    requires forall c :: 0 <= c < |d.categories| && HasParent(d.categories[c]) ==>
      flows[c].value == SubtreeTotal(d.categories, d.transactions, c) as real
    requires forall c :: 0 <= c < |d.categories| && !HasParent(d.categories[c]) ==> flows[c].value == TotalIncome(d) as real
    requires k < |d.categories| && Children(d.categories, k) != []
    ensures forall i :: 0 <= i < |Children(d.categories, k)| ==> Children(d.categories, k)[i] < |flows|
    ensures HasParent(d.categories[k]) ==> flows[k].value == FlowTotal(flows, Children(d.categories, k))
    ensures !HasParent(d.categories[k]) ==> 2.0 * flows[k].value == FlowTotal(flows, Children(d.categories, k))
  {
    var cats, txs := d.categories, d.transactions;
    var cs := Children(cats, k);
    ChildrenHaveParents(cats, k);
    FlowTotalOfSubtrees(cats, txs, flows, cs);
    SubtreesAddUp(d, k);
    if !HasParent(cats[k]) {
      RootIsTwiceIncome(d, k);
    }
  }

  /** `convert` on a validated ledger whose ids are unique and whose parent
      links form a tree. */
  method Convert(d: InputData) returns (out: OutputData)
    requires Validate(d).Pass? && UniqueIds(d.categories) && Rooted(d.categories)
    ensures TotalIncome(d) > 0 && TotalExpense(d) > 0
    ensures forall t :: t in IncomeTransactions(d) ==> t.categoryId in NameById(d.categories)
    ensures forall t :: t in ExpenseTransactions(d) ==> t.categoryId in NameById(d.categories)
    ensures out.summary == SummaryOf(d)
    ensures out.incomeTransactions == Views(NameById(d.categories), IncomeTransactions(d), TotalIncome(d))
    ensures out.expenseTransactions == Views(NameById(d.categories), ExpenseTransactions(d), TotalExpense(d))
    ensures |out.flows| == |d.categories|
    ensures forall k :: 0 <= k < |d.categories| ==> out.flows[k].(value := 0.0) == InitialFlow(d.categories[k])
    ensures forall k :: 0 <= k < |d.categories| && HasParent(d.categories[k]) ==>
      out.flows[k].value == SubtreeTotal(d.categories, d.transactions, k) as real
    ensures forall k :: 0 <= k < |d.categories| && !HasParent(d.categories[k]) ==>
      out.flows[k].value == TotalIncome(d) as real && out.flows[k].value == TotalExpense(d) as real
  {
    var cats := d.categories;
    TotalsPositive(d);
    ListedAreIndexed(d);
    var income := IncomeTransactions(d);
    var expense := ExpenseTransactions(d);
    var names := NameById(cats);
    assert forall t: InputTransaction :: t in income ==> t in Listed(d);
    assert forall t: InputTransaction :: t in expense ==> t in Listed(d);
    var incomeViews := Views(names, income, TotalIncome(d));
    var expenseViews := Views(names, expense, TotalExpense(d));
    var flows := AggregateFlows(cats, income + expense);
    FlowValues(d, flows);
    out := OutputData(SummaryOf(d), flows, incomeViews, expenseViews);
  }
}
