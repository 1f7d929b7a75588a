# Political-funds ledger conversion, in Dafny

This project models two parts of the political-funds report tooling.

**The ledger converter (data/converter.ts).** `validateInput` checks a raw yearly ledger, which is a list of categories forming a tree and a list of transactions. `convert` then turns a valid ledger into:

- the year summary: income, expense, balance carried to the next year, and year;
- the income and expense transaction lists, where each entry carries its category's name and its share of the total as a percentage;
- one flow per category, whose value is the sum of the transactions at or below that category. The root's flow is halved, because it collects both income and expense.

**Two downloader helpers (tools/downloader/utils.py).**

- `sanitize_filename` replaces the characters that file systems refuse and shortens over-long names.
- `extract_year_from_url` turns a publication URL into a Reiwa year label `R<n>`.

Files and modules:

| file | module | content |
|---|---|---|
| wrappers.dfy | `Wrappers` | `Option` |
| ledger_types.dfy | `LedgerTypes` | categories, transactions, output records, id tables, parent and leaf ids, roots |
| ledger_sums.dfy | `LedgerSums` | sums over transactions, filtering by category id, partition lemmas |
| ledger_tree.dfy | `LedgerTree` | the upward walk from a category to the root, subtree totals, children |
| ledger_validate.dfy | `LedgerValidate` | `validateInput` as an ordered chain of checks |
| ledger_aggregate.dfy | `LedgerAggregate` | the in-place upward pass over an array of flows, and the halving of the root |
| ledger_convert.dfy | `LedgerConvert` | `convert` and the properties of its result on a valid ledger |
| decimal.dfy | `Decimal` | decimal text of integers (`int()` and `f"{n}"`) |
| file_names.dfy | `FileNames` | `sanitize_filename` and Python's `Path.stem` / `Path.suffix` |
| year_extraction.dfy | `YearExtraction` | `extract_year_from_url` |

How the source is represented:

- Missing JSON fields are empty strings. A `value` of 0 counts as missing, as `!transaction.value` does.
- A `null` parent is `None`. `HasParent` follows JavaScript truthiness: neither `None` nor `""` counts as a parent.
- Amounts are unbounded integers. Flow values and percentages are exact reals.
- Tables built with `reduce` keep the last category for each id (`LedgerTypes.IndexIsLast` states that no later category has the id); `find` keeps the first.
- The upward pass works in place on an `array<Flow>`. The id table maps a category id to its position in that array, just as the source's table maps it to the same flow object.

## Model

| member | source | states |
|---|---|---|
| LedgerTypes.IndexById | data/converter.ts:126-132 | every key of the id table leads to a category with that id |
| LedgerTypes.IndexIsLast | data/converter.ts:126-132 | the table keeps the last category with each id: no later category has that id |
| LedgerTypes.IndexCovers | data/converter.ts:128-132 | every category's id is a key of the table |
| LedgerTypes.IndexOfUnique | data/converter.ts:128-132 | with unique ids, the table gives each category its own position |
| LedgerTypes.UniqueIds | data/converter.ts:126-132 | no contract of its own: no two categories share an id, which the source assumes without checking; the lemmas that read the id table as positions require it |
| LedgerTypes.HasId | data/converter.ts:238 | no contract of its own: some category has the id, as `categoryIds.includes` asks; `LedgerTypes.Ids` and `LedgerTypes.LeafIds` state their membership with it |
| LedgerTypes.NameById | data/converter.ts:89-95 | the name table has the same keys as the id table and gives the name of the category the id table selects, so the last category with an id wins |
| LedgerTypes.HasParent | data/converter.ts:231-233 | no contract of its own: JavaScript truthiness of `parent` (`!c.parent`, `while (flow.parent)`); `LedgerTypes.Roots` and `LedgerAggregate.FirstRoot` state what it selects |
| LedgerTypes.ParentIds | data/converter.ts:239-241 | an id is listed exactly when some category's non-null parent equals it |
| LedgerTypes.Ids | data/converter.ts:238 | the ids of the categories, position by position |
| LedgerTypes.LeafIds | data/converter.ts:242-244 | an id is a leaf id exactly when a category has it and no category names it as parent |
| LedgerTypes.FilterOut | data/converter.ts:242-244 | keeps exactly the ids not in the dropped list |
| LedgerTypes.Roots | data/converter.ts:231-233 | lists, in increasing order, exactly the categories without a parent |
| LedgerTypes.RootsBelow | data/converter.ts:231-233 | the same, among the first `m` categories |
| LedgerSums.DirectionIds | data/converter.ts:54-59 | an id is listed exactly when a category with that direction has it |
| LedgerSums.TxsIn | data/converter.ts:61-66 | keeps exactly the transactions whose category id is listed, never more than the input |
| LedgerSums.TxsWithCategory | data/converter.ts:196-198 | keeps exactly the transactions booked against one id |
| LedgerSums.TxsInConcat | data/converter.ts:61-66 | filtering distributes over concatenation, so it keeps input order |
| LedgerSums.SumOf | data/converter.ts:68-75 | no contract of its own: the left fold of `reduce` over a summand; `LedgerSums.SumOfConcat`, `LedgerSums.SumOfCongruent`, `LedgerSums.SumOfAdd`, `LedgerSums.SumOfPartition` and `LedgerSums.SumOfZero` state its properties |
| LedgerSums.Value | data/converter.ts:69 | no contract of its own: the summand `t.value` of the totals |
| LedgerSums.Total | data/converter.ts:68-75 | no contract of its own: the `reduce` summing values; `LedgerSums.SumOfPartition`, `LedgerSums.TotalAtLeastMember` and `LedgerConvert.TotalsPositive` state its properties |
| LedgerSums.SumOfConcat | data/converter.ts:68-75 | the sum over a concatenation is the sum of the sums |
| LedgerSums.SumOfCongruent | data/converter.ts:68-75 | sums of pointwise-equal summands are equal |
| LedgerSums.SumOfAdd | data/converter.ts:68-75 | the sum of a pointwise sum is the sum of the sums |
| LedgerSums.SumOfPartition | data/converter.ts:61-75 | when each transaction is in exactly one of two id lists, the two filtered sums add up to the whole sum |
| LedgerSums.TotalAtLeastMember | data/converter.ts:68-75 | with positive values, the total is at least each member's value, and so positive |
| LedgerSums.SumOfZero | data/converter.ts:68-75 | a sum of zeros is zero |
| LedgerTree.Up | data/converter.ts:137-138 | a step of `flow = flowsByCategoryIdMap[flow.parent]` stays inside the flows |
| LedgerTree.Walk | data/converter.ts:133-141 | the walk starts at its category, is never empty, and visits only categories |
| LedgerTree.Chain | data/converter.ts:133-141 | the same for the walk with one step per category |
| LedgerTree.Top | data/converter.ts:137 | where the walk ends is a category on the walk |
| LedgerTree.ParentOf | data/converter.ts:137-138 | no contract of its own: one category names another as its parent; `LedgerTree.UpIsParent` states that a step of the walk follows it |
| LedgerTree.Rooted | data/converter.ts:137-140 | specification only, no contract of its own: every walk ends at a category without parent, so `while (flow.parent)` stops; the source does not check it (see Left out) |
| LedgerTree.UpIsParent | data/converter.ts:137-138 | a step through the id table goes from a category to its parent |
| LedgerTree.WalkStep | data/converter.ts:137-139 | consecutive categories of a walk are linked by one step |
| LedgerTree.WalkSuffix | data/converter.ts:137-140 | the rest of a walk is the walk from where it has got to |
| LedgerTree.WalkTail | data/converter.ts:137-140 | length and last category of the rest of a walk |
| LedgerTree.WalkComplete | data/converter.ts:137-140 | a walk that ended at a category without parent does not change with more steps |
| LedgerTree.ChainDistinct | data/converter.ts:137-140 | in a tree the walk visits no category twice, so no flow is added to twice for one transaction |
| LedgerTree.WalkNoRepeat | data/converter.ts:137-140 | the same for any walk that ends at a category without parent |
| LedgerTree.ChainAfterFirst | data/converter.ts:137-140 | the start of a walk does not come back later |
| LedgerTree.ChildOnChain | data/converter.ts:136-140 | a category's parent follows it on any walk through it |
| LedgerTree.ChildrenBelow | data/converter.ts:136 | lists, in increasing order, exactly the children of a category among the first `m` categories |
| LedgerTree.Children | data/converter.ts:136 | lists, in increasing order, exactly the children of a category |
| LedgerTree.ChildrenTotalSwap | data/converter.ts:136 | summing over children then over transactions equals the other order |
| LedgerTree.ChildrenContributionNone | data/converter.ts:136 | a transaction below none of the children adds nothing to them |
| LedgerTree.ChildrenContributionOne | data/converter.ts:136 | a transaction below exactly one child adds to the children only what it adds to that child |
| LedgerTree.ChildrenOnChain | data/converter.ts:136-140 | on a walk through a category, the only child of it met is the one just before it |
| LedgerTree.ChildrenHaveParents | data/converter.ts:136 | every child of a category is a category with a parent |
| LedgerTree.ContributionThroughChild | data/converter.ts:136-140 | when the walk from a transaction's category reaches a category after leaving one of its children, the transaction adds its value to that category through the children and nothing directly |
| LedgerTree.ContributionSplit | data/converter.ts:136-140 | what a transaction adds to a category is its direct share plus what it adds to the category's children |
| LedgerTree.IndexOf | data/converter.ts:137-140 | the first position of a category on a walk |
| LedgerTree.Contribution | data/converter.ts:133-140 | no contract of its own: what one transaction adds to a category's flow, its value exactly when the category is on the transaction's walk; `LedgerTree.ContributionSplit` states its properties |
| LedgerTree.DirectContribution | data/converter.ts:134-135 | no contract of its own: the value of a transaction booked on the category itself, the `flow.value += t.value` before the loop |
| LedgerTree.SubtreeTotal | data/converter.ts:133-141 | specification only, no contract of its own: the sum of the contributions of the transactions; `LedgerAggregate.AggregateFlows` states that the pass computes it and `LedgerTree.SubtreeIsDirectPlusChildren` splits it over the children |
| LedgerTree.DirectTotal | data/converter.ts:134-135 | no contract of its own: the sum of the direct contributions; `LedgerTree.SubtreeIsDirectPlusChildren` and `LedgerTree.LeafIsDirect` state its role |
| LedgerTree.ChildrenTotal | data/converter.ts:136 | no contract of its own: the sum of the children's subtree totals; `LedgerTree.ChildrenTotalSwap` and `LedgerTree.InnerIsSumOfChildren` state its properties |
| LedgerTree.ChildrenContribution | data/converter.ts:136 | no contract of its own: what one transaction adds to a list of children; `LedgerTree.ChildrenContributionNone` and `LedgerTree.ChildrenContributionOne` state its values |
| LedgerTree.SubtreeIsDirectPlusChildren | data/converter.ts:136 | a subtree total is the direct total plus the children's subtree totals |
| LedgerTree.InnerHasNoDirect | data/converter.ts:238-266 | when transactions sit on leaves only, a category with children has no direct total |
| LedgerTree.InnerIsSumOfChildren | data/converter.ts:136 | then a category with children holds exactly the sum of its children's subtree totals |
| LedgerTree.LeafIsDirect | data/converter.ts:136 | a leaf's subtree total is its direct total |
| LedgerTree.RootCollectsAll | data/converter.ts:133-141 | in a tree with a single root, the root's subtree total is the total of all transactions |
| LedgerValidate.CategoryError | data/converter.ts:171-180 | no contract of its own: the two checks of one category in source order; `LedgerValidate.CategoryErrorIsCheck` states its meaning |
| LedgerValidate.CategoryWellFormed | data/converter.ts:171-180 | no contract of its own: the invariant of the first stage, a name and a direction of `income` or `expense`; `LedgerValidate.CategoryErrorIsCheck` ties it to the checks |
| LedgerValidate.CategoryErrorIsCheck | data/converter.ts:171-180 | a category passes its checks exactly when it has a name and a direction of `income` or `expense`; a missing field is reported before an unknown direction |
| LedgerValidate.CheckCategories | data/converter.ts:170-181 | passes exactly when every category has a name and a direction of `income` or `expense`; otherwise reports the first failing category, with an error of the first stage |
| LedgerValidate.FirstNamed | data/converter.ts:183-195 | the first category with the name, or none exactly when no category has it |
| LedgerValidate.CountFor | data/converter.ts:190-211 | no contract of its own: the number of transactions of the first category with a name; `LedgerValidate.StageCheck` reports it and `LedgerConvert.SummaryOfValidLedger` uses the count of one |
| LedgerValidate.TotalIncome | data/converter.ts:213-224 | no contract of its own: the sum of the income transactions; `LedgerConvert.TotalsPositive`, `LedgerConvert.SingleRoot` and `LedgerConvert.RootIsTwiceIncome` state its properties |
| LedgerValidate.TotalExpense | data/converter.ts:213-224 | no contract of its own: the sum of the expense transactions; the same lemmas state its properties |
| LedgerValidate.TransactionError | data/converter.ts:246-272 | no contract of its own: the checks of one transaction in source order, against the id lists built before the loop (`categoryIds`, `leafCategoryIds`); `LedgerValidate.TransactionErrorIsCheck` and `LedgerValidate.FirstFailingTransaction` state its meaning |
| LedgerValidate.TransactionWellFormed | data/converter.ts:245-273 | no contract of its own: the invariant of the last stage, all fields, a known leaf category and a positive value; `LedgerValidate.TransactionErrorIsCheck` ties it to the checks |
| LedgerValidate.TransactionErrorIsCheck | data/converter.ts:245-273 | the per-transaction checks find no error exactly when the transaction is well formed: all fields, a known leaf category, a positive value |
| LedgerValidate.CheckTransactions | data/converter.ts:245-273 | any error it reports is one of the transaction errors, raised by the last stage of the checks |
| LedgerValidate.CheckTransactionsPass | data/converter.ts:245-273 | the loop from a position passes exactly when no transaction from there on has an error |
| LedgerValidate.FirstError | data/converter.ts:245-273 | a failing loop reports the error of the first transaction that has one, and no earlier transaction has one |
| LedgerValidate.TransactionsPass | data/converter.ts:245-273 | the loop from a position passes exactly when every transaction from there on is well formed |
| LedgerValidate.FirstFailingTransaction | data/converter.ts:245-273 | a failing loop reports the first transaction that is not well formed, with the first check that transaction fails |
| LedgerValidate.AllTransactionsChecked | data/converter.ts:245-273 | the transaction loop passes exactly when every transaction is well formed |
| LedgerValidate.StageHolds | data/converter.ts:170-273 | specification only, no contract of its own: the invariant each check of `validateInput` enforces, in order; `LedgerValidate.StageCheck` states that each check passes exactly when its invariant holds |
| LedgerValidate.StageOf | data/converter.ts:170-273 | no contract of its own: the check that raises an error; `LedgerValidate.CheckFrom` and `LedgerValidate.Validate` use it to order the errors |
| LedgerValidate.ValidInput | data/converter.ts:156-274 | specification only, no contract of its own: all eight invariants hold; `LedgerValidate.Validate` passes exactly on it |
| LedgerValidate.StageCheck | data/converter.ts:170-273 | each check passes exactly when its invariant holds, and reports the counts and totals that failed it |
| LedgerValidate.CheckFrom | data/converter.ts:170-273 | the checks from a stage on pass exactly when all later invariants hold; otherwise the first failing stage decides |
| LedgerValidate.Validate | data/converter.ts:156-274 | accepts exactly the valid ledgers; otherwise the error comes from the first failing check, all earlier ones hold, and the reported counts and totals are the real ones |
| LedgerAggregate.InitialFlow | data/converter.ts:119-125 | no contract of its own: the flow of a category before the pass; `LedgerAggregate.AggregateFlows` and `LedgerConvert.Convert` state that each result flow equals it except for its value |
| LedgerAggregate.FirstRoot | data/converter.ts:143 | finds a category exactly when a root exists, and it is the first category without parent |
| LedgerAggregate.WalkContinues | data/converter.ts:137-139 | while the current flow has a parent, the loop's lookup goes to the next category of the walk |
| LedgerAggregate.WalkStops | data/converter.ts:137 | the loop stops exactly at the end of the walk |
| LedgerAggregate.SubtreeExtend | data/converter.ts:133-141 | one more transaction adds its value to the subtree totals of the categories on its walk and to no other |
| LedgerAggregate.AddTo | data/converter.ts:135-139 | keeps the number of flows; the flows with the value added at each listed position, whose meaning `LedgerAggregate.AddToStep` and `LedgerAggregate.AddToKeepsParent` state |
| LedgerAggregate.AddToKeepsParent | data/converter.ts:137-139 | adding values keeps every flow's parent, which the loop's `flow.parent` reads |
| LedgerAggregate.AddToStep | data/converter.ts:138-139 | adding to one more, not yet visited, flow changes that flow alone |
| LedgerAggregate.WalkGrows | data/converter.ts:137-140 | each new category of a walk in a tree extends the visited prefix and was not visited before |
| LedgerAggregate.AddAlongWalk | data/converter.ts:135-140 | the new array adds the value to exactly the flows on the walk from the category |
| LedgerAggregate.Accumulate | data/converter.ts:133-141 | after the loop over the transactions every flow holds its category's subtree total and keeps its other fields |
| LedgerAggregate.AggregateFlows | data/converter.ts:121-146 | one flow per category with the category's fields; each flow except the first root holds its subtree total, and the first root holds half of its subtree total |
| LedgerConvert.IncomeTransactions | data/converter.ts:61-63 | no contract of its own: the income transactions in input order; `LedgerConvert.ListsPartition` and `LedgerConvert.DirectionsPartition` state its properties |
| LedgerConvert.ExpenseTransactions | data/converter.ts:64-66 | no contract of its own: the expense transactions in input order; the same lemmas state its properties |
| LedgerConvert.BalanceValue | data/converter.ts:76-85 | no contract of its own: the value of the first next-year transaction, or 0; `LedgerConvert.SummaryOfValidLedger` states its properties |
| LedgerConvert.SummaryOf | data/converter.ts:76-87 | no contract of its own: the `summary` object; `LedgerConvert.SummaryOfValidLedger` states its properties |
| LedgerConvert.ViewOf | data/converter.ts:97-117 | no contract of its own: one list entry; `LedgerConvert.ViewFields` states its fields |
| LedgerConvert.SumPercent | data/converter.ts:97-117 | no contract of its own: the sum of the percentages of a list; `LedgerConvert.PercentScaled` and `LedgerConvert.PercentagesSumTo100` state its value |
| LedgerConvert.FlowTotal | data/converter.ts:136 | no contract of its own: the sum of the values of some flows; `LedgerConvert.FlowTotalOfSubtrees` and `LedgerConvert.FlowsAddUp` state its value |
| LedgerConvert.FirstWithCategory | data/converter.ts:79-81 | the first transaction booked against the id, or none exactly when there is none |
| LedgerConvert.IdIsIndexed | data/converter.ts:128-135 | an id some category has is a key of the table |
| LedgerConvert.DirectionsPartition | data/converter.ts:54-66 | in a valid ledger with unique category ids (`UniqueIds`) each transaction's category is an income category or an expense category, never both |
| LedgerConvert.ListedAreIndexed | data/converter.ts:133-134 | every transaction of the two lists has an entry in the table |
| LedgerConvert.TotalsPositive | data/converter.ts:68-75 | a valid ledger has positive income and expense totals, so the percentage divisions are defined |
| LedgerConvert.FirstHeadsFilter | data/converter.ts:79-81 | the first transaction with a category heads the filtered list |
| LedgerConvert.SummaryOfValidLedger | data/converter.ts:68-87 | the summary of a valid ledger: income is the income total; the balance is the value of the only next-year carry-over transaction and is positive; income equals expense plus balance; the year is the input year |
| LedgerConvert.ViewFields | data/converter.ts:97-119 | each entry copies id, name, date and value, names its transaction's category, and gives value × 100 / total |
| LedgerConvert.ViewAt | data/converter.ts:97-117 | the entry at a position, for any name table holding every listed category, copies the transaction's fields, names its category and gives value × 100 / total |
| LedgerConvert.CountIsLength | data/converter.ts:61-66 | counting with a sum of ones gives the length |
| LedgerConvert.ListsPartition | data/converter.ts:61-66 | in a valid ledger with unique category ids (`UniqueIds`) every transaction is in exactly one of the income and expense lists, and the two lists together are as long as the input |
| LedgerConvert.Views | data/converter.ts:97-119 | one entry per transaction of the list |
| LedgerConvert.PercentScaled | data/converter.ts:97-119 | the percentages of a list sum to 100 × its total / the divisor |
| LedgerConvert.PercentagesSumTo100 | data/converter.ts:97-119 | the percentages of the income list, or of the expense list, add up to 100 |
| LedgerConvert.Listed | data/converter.ts:133 | no contract of its own: the income list followed by the expense list, the order of the upward pass; `LedgerConvert.SubtreeOverLists` states that this order gives the subtree totals over all transactions |
| LedgerConvert.SubtreeOverLists | data/converter.ts:133-134 | in a valid ledger with unique category ids (`UniqueIds`), the pass over the income list then the expense list gives the subtree total over all transactions |
| LedgerConvert.FlowTotalOfSubtrees | data/converter.ts:136 | when each flow holds its subtree total, the children's flows add up to their subtree totals |
| LedgerConvert.FlowValues | data/converter.ts:133-146 | in a valid ledger with unique category ids whose parent links form a tree (`UniqueIds`, `Rooted`) each non-root flow ends with its subtree total, and the root ends with the income total, equal to the expense total |
| LedgerConvert.OnlyRoot | data/converter.ts:143 | a valid ledger has exactly one category without parent, and `flows.find` finds it |
| LedgerConvert.RootTotal | data/converter.ts:142-146 | before halving the root holds income plus expense, and in a valid ledger these two are equal |
| LedgerConvert.BookedOnLeaves | data/converter.ts:245-266 | every transaction of a valid ledger is booked against a known leaf |
| LedgerConvert.SubtreesAddUp | data/converter.ts:136 | in a valid ledger with unique ids and parent links forming a tree (`UniqueIds`, `Rooted`) a category with children totals its children's totals |
| LedgerConvert.SingleRoot | data/converter.ts:225-236 | a valid ledger has exactly one category without parent, and its income and expense totals agree |
| LedgerConvert.RootTotalsBothSides | data/converter.ts:133-141 | the single root of a tree totals the two sides of any partition of the transactions together |
| LedgerConvert.RootIsTwiceIncome | data/converter.ts:133-146 | in a valid ledger with unique ids and parent links forming a tree (`UniqueIds`, `Rooted`), the root totals income and expense together, which is twice the income |
| LedgerConvert.FlowsAddUp | data/converter.ts:136-146 | in the result for a valid ledger with unique ids and parent links forming a tree (`UniqueIds`, `Rooted`), a category with children and a parent holds the sum of its children's flows, and the root holds half of that sum |
| LedgerConvert.Convert | data/converter.ts:53-154 | the summary, the two lists with their percentages, and flows holding subtree totals with the root at the income total, equal to the expense total |
| Decimal.DigitChar | tools/downloader/utils.py:123 | a digit is written as the character that reads back as it |
| Decimal.IsDigit | tools/downloader/utils.py:122 | no contract of its own: an ASCII digit, as `\d` matches |
| Decimal.AllDigits | tools/downloader/utils.py:122 | no contract of its own: a text of digits only; `Decimal.NatToString` states that its results are such texts |
| Decimal.DigitValue | tools/downloader/utils.py:122 | a digit stands for a number below 10 |
| Decimal.Power10 | tools/downloader/utils.py:132 | a power of ten is at least 1 |
| Decimal.NatToString | tools/downloader/utils.py:123 | decimal text of a natural number: digits only, no leading zero |
| Decimal.IntToString | tools/downloader/utils.py:136 | decimal text of an integer, with a minus sign exactly for negative ones |
| Decimal.DigitsBelowPower | tools/downloader/utils.py:132-134 | `n` digits read as a number below `10^n` |
| Decimal.DigitsValue | tools/downloader/utils.py:122 | no contract of its own: the number that decimal digits stand for, as `int()` reads them; `Decimal.DigitsBelowPower` and `Decimal.NatToStringRoundTrip` state its properties |
| Decimal.ParseInt | tools/downloader/utils.py:122 | no contract of its own: `int()` on an optionally signed digit string; `Decimal.IntToStringRoundTrip` states that it reads back every integer's text |
| Decimal.NatToStringRoundTrip | tools/downloader/utils.py:123 | reading back the text of a natural number gives the number |
| Decimal.IntToStringRoundTrip | tools/downloader/utils.py:136 | reading back the text of an integer gives the integer |
| Decimal.IntToStringInjective | tools/downloader/utils.py:136 | different integers give different texts |
| FileNames.ReplaceInvalid | tools/downloader/utils.py:91-92 | each character of the class `[\\/*?:"<>]` and the vertical bar becomes `_`; every other character and the length stay |
| FileNames.IsInvalid | tools/downloader/utils.py:91-92 | no contract of its own: the nine characters the source's class replaces, the eight in `\/*?:"<>` and the vertical bar; `FileNames.ReplaceInvalid` states what becomes of them |
| FileNames.Safe | tools/downloader/utils.py:91-92 | no contract of its own: no character is one of the nine; `FileNames.SanitizedIsSafe` states that every result is safe |
| FileNames.LastDot | tools/downloader/utils.py:97-99 | the position of the last dot, or none exactly when there is no dot |
| FileNames.SuffixStart | tools/downloader/utils.py:97-99 | the suffix starts at the last dot, and there is a suffix exactly when there is a last dot that is neither the first nor the last character |
| FileNames.Suffix | tools/downloader/utils.py:99 | no contract of its own: `Path(name).suffix`; `FileNames.StemSuffixSplit` states its properties |
| FileNames.Stem | tools/downloader/utils.py:98 | no contract of its own: `Path(name).stem`; `FileNames.StemSuffixSplit` states its properties |
| FileNames.SliceTo | tools/downloader/utils.py:100 | Python's `s[:e]` is a prefix whose length follows Python's rule for negative ends |
| FileNames.SanitizeFilename | tools/downloader/utils.py:79-102 | no contract of its own: `sanitize_filename`; `FileNames.SanitizedIsSafe`, `FileNames.ShortNameKeepsLength`, `FileNames.LongNameTruncated` and `FileNames.SanitizeIdempotent` state its properties |
| FileNames.StemSuffixSplit | tools/downloader/utils.py:97-100 | stem then suffix gives the name back; the suffix is empty, or a dot followed by no further dot |
| FileNames.ReplaceInvalidIsSafe | tools/downloader/utils.py:91-92 | the replacement leaves no invalid character and changes a safe name not at all |
| FileNames.SafeConcat | tools/downloader/utils.py:100 | a concatenation is safe exactly when both parts are |
| FileNames.SafePrefix | tools/downloader/utils.py:100 | a prefix of a safe name is safe |
| FileNames.SanitizedIsSafe | tools/downloader/utils.py:79-102 | the result contains none of the nine characters the source replaces |
| FileNames.ShortenedIsSafe | tools/downloader/utils.py:96-100 | cutting a safe name's stem and keeping its suffix leaves it safe |
| FileNames.ShortNameKeepsLength | tools/downloader/utils.py:92-96 | a name of at most 240 characters only has its invalid characters replaced, and keeps its length |
| FileNames.CutShape | tools/downloader/utils.py:100 | the cut is a prefix of the stem followed by the whole suffix; it is 240 long exactly when the suffix is at most 240 long, and longer otherwise |
| FileNames.LongNameTruncated | tools/downloader/utils.py:94-100 | a longer name ends with its suffix after a prefix of its stem; its length is exactly 240 if and only if the suffix has at most 240 characters, and more than 240 otherwise |
| FileNames.SanitizeIdempotent | tools/downloader/utils.py:79-102 | sanitizing a result of at most 240 characters again changes nothing |
| YearExtraction.EraYear | tools/downloader/utils.py:121-128 | the year is one of the groups and no group is larger |
| YearExtraction.Usable | tools/downloader/utils.py:119-128 | no contract of its own: a match with one group or two, the only matches the loop returns from; `YearExtraction.FromPatterns` states that the first usable match decides |
| YearExtraction.FromPatterns | tools/downloader/utils.py:117-128 | none exactly when no pattern yields one or two groups; otherwise the year of the first pattern that does, with every earlier match skipped |
| YearExtraction.SsFrom | tools/downloader/utils.py:132 | the leftmost `SS` followed by four digits, or none exactly when there is none |
| YearExtraction.SsYear | tools/downloader/utils.py:132-135 | the stamp's year minus 2018, between -2018 and 7981, with no clamping |
| YearExtraction.SsAt | tools/downloader/utils.py:132 | no contract of its own: `SS` and four digits at a position; `YearExtraction.SsFrom` states what it finds |
| YearExtraction.ExtractYearFromUrl | tools/downloader/utils.py:105-139 | no contract of its own: `extract_year_from_url`; `YearExtraction.ExtractYearMeaning`, `YearExtraction.StampOf2024`, `YearExtraction.StampOf2018` and `YearExtraction.RangeAndSkippedPatterns` state its properties |
| YearExtraction.ExtractYearMeaning | tools/downloader/utils.py:105-139 | none exactly when no pattern is usable and there is no stamp; otherwise `R` followed by text that reads back as the first usable pattern's year, or else as the stamp's year minus 2018 |
| YearExtraction.StampOf2024 | tools/downloader/utils.py:130-136 | `SS20241129` gives `R6` |
| YearExtraction.StampOf2018 | tools/downloader/utils.py:132-136 | a stamp of 2018 gives `R0`: years before Reiwa are not clamped |
| YearExtraction.RangeAndSkippedPatterns | tools/downloader/utils.py:117-128 | a two-group match gives the later year; a three-group match is passed over for a later pattern |

## Left out

- `parseArguments` and `main` (data/converter.ts:276-323) read arguments, read and write files, and parse and print JSON. This I/O is not modelled.
- The `typeof` and `Array.isArray` checks (data/converter.ts:157-168, 267, 270) are not modelled. The input is a typed datatype: `year` is always a number, the lists are always lists, and a date is always text.
- JavaScript numbers are not modelled as IEEE doubles. Amounts are unbounded integers. Flow values and percentages are exact reals, so rounding in `t.value * 100.0 / total` and in `/= 2` is not captured, nor are fractional amounts.
- LedgerConvert.Convert: requires unique category ids and parent links that resolve and form a tree (`UniqueIds`, `Rooted`). The source checks neither. Without them its `while (flow.parent)` loop can read an undefined flow or never stop, and its tables resolve duplicate ids last-wins. `Rooted` asks more than the loop needs: it also rules out ledgers that the source validates and converts without failing, such as one with a transaction-free leaf whose parent id does not exist, or with a parent cycle that no transaction's walk reaches, because the source never walks from those categories.
- LedgerTree.Walk: stops at a parent id that no category has, where the source would fail on `undefined`. It also takes at most one step per category. Under `Rooted`, neither limit is ever reached.
- LedgerConvert.Views: requires every listed transaction's category to be in the name table. The source would put `undefined` in the entry, which cannot happen for a valid ledger (LedgerConvert.ListedAreIndexed).
- In `extract_year_from_url`, `\d` and `int()` are modelled for ASCII digits only. Python also accepts other Unicode decimal digits.
- The `YEAR_PATTERNS` list (from the downloader's configuration module) is not part of this model. Each pattern is a function from the URL to no match, or to the non-negative integer values of its groups, which is what `int()` gives for a `\d+` group; `int()` on a group is assumed to succeed.
- The warning logged when no year is found (tools/downloader/utils.py:138) is not modelled.
- `setup_logger` and `create_directory` (tools/downloader/utils.py:19-76) are not modelled: they configure logging and create directories.
- tools/downloader/robotparser.py and the React pages and components are not part of this model.
- FileNames.Suffix and FileNames.Stem follow the rule of `PurePath.suffix` for a name without separators. Every `/` and `\` has already been replaced at that point, so the whole text is the name.
