/** `validateInput` of data/converter.ts: an ordered chain of checks on the raw
    ledger; the first failing check decides the error. */
module LedgerValidate {
  import opened Wrappers
  import opened LedgerTypes
  import opened LedgerSums

  datatype ValidationError =
    | CategoryMissingField(category: nat)
    | InvalidDirection(category: nat)
    | MissingPreviousYearCategory
    | MissingNextYearCategory
    | PreviousYearTransactionCount(count: nat)
    | NextYearTransactionCount(count: nat)
    | Unbalanced(income: int, expense: int)
    | RootCategoryCount(count: nat)
    | TransactionMissingField(transaction: nat)
    | UnknownCategory(transaction: nat)
    | NotLeafCategory(transaction: nat)
    | NonPositiveValue(transaction: nat)

  datatype Outcome = Pass | Fail(error: ValidationError)

  /** The check of one category: name and direction present, direction known. */
  function CategoryError(c: Category, k: nat): Option<ValidationError>
  {
    if c.name == "" || c.direction == "" then Some(CategoryMissingField(k))
    else if c.direction != INCOME && c.direction != EXPENSE then Some(InvalidDirection(k))
    else None
  }

  predicate CategoryWellFormed(c: Category)
  {
    c.name != "" && (c.direction == INCOME || c.direction == EXPENSE)
  }

  /** The per-category checks find no error exactly when the category is well
      formed; a missing field is reported before an unknown direction. */
  lemma CategoryErrorIsCheck(c: Category, k: nat)
    ensures CategoryError(c, k).None? <==> CategoryWellFormed(c)
    ensures c.name == "" || c.direction == "" ==> CategoryError(c, k) == Some(CategoryMissingField(k))
  {
  }

  /** The loop over categories from position `i`: the first failing category decides. */
  function CheckCategories(cats: seq<Category>, i: nat): (r: Outcome)
    requires i <= |cats|
    ensures r.Pass? <==> forall k :: i <= k < |cats| ==> CategoryWellFormed(cats[k])
    ensures r.Fail? ==> exists k :: (i <= k < |cats| && !CategoryWellFormed(cats[k])
      && (forall j :: i <= j < k ==> CategoryWellFormed(cats[j])) && Some(r.error) == CategoryError(cats[k], k))
    ensures r.Fail? ==> StageOf(r.error) == 1
    decreases |cats| - i
  {
    if i == |cats| then Pass
    else match CategoryError(cats[i], i)
      case Some(e) => Fail(e)
      case None => CheckCategories(cats, i + 1)
  }

  /** `categories.find(c => c.name === name)`: the first category with that name. */
  function FirstNamed(cats: seq<Category>, name: string): (r: Option<nat>)
    ensures r.Some? ==> r.value < |cats| && cats[r.value].name == name
    ensures r.Some? ==> forall j :: 0 <= j < r.value ==> cats[j].name != name
    ensures r.None? <==> forall j :: 0 <= j < |cats| ==> cats[j].name != name
  {
    if cats == [] then None
    else if cats[0].name == name then Some(0)
    else match FirstNamed(cats[1..], name)
      case None => None
      case Some(k) => Some(k + 1)
  }

  /** Number of transactions booked against the first category with the given
      name (0 when there is none; the source never gets that far). */
  function CountFor(d: InputData, name: string): nat
  {
    match FirstNamed(d.categories, name)
    case None => 0
    case Some(k) => |TxsWithCategory(d.transactions, d.categories[k].id)|
  }

  function TotalIncome(d: InputData): int
  {
    Total(TxsIn(d.transactions, DirectionIds(d.categories, INCOME)))
  }

  function TotalExpense(d: InputData): int
  {
    Total(TxsIn(d.transactions, DirectionIds(d.categories, EXPENSE)))
  }

  /** The checks of one transaction, in the source's order: a missing field
      (empty text or a zero value), an id not in `ids` (`categoryIds`), an id not
      in `leafIds` (`leafCategoryIds`), a value that is not positive. */
  function TransactionError(ids: seq<string>, leafIds: seq<string>, t: InputTransaction, i: nat): Option<ValidationError>
  {
    if t.id == "" || t.categoryId == "" || t.name == "" || t.date == "" || t.value == 0 then Some(TransactionMissingField(i))
    else if t.categoryId !in ids then Some(UnknownCategory(i))
    else if t.categoryId !in leafIds then Some(NotLeafCategory(i))
    else if t.value <= 0 then Some(NonPositiveValue(i))
    else None
  }

  /** A transaction has all its fields, refers to an existing leaf category and
      has a positive value. */
  predicate TransactionWellFormed(cats: seq<Category>, t: InputTransaction)
  {
    && t.id != "" && t.categoryId != "" && t.name != "" && t.date != ""
    && HasId(cats, t.categoryId)
    && t.categoryId !in ParentIds(cats)
    && t.value > 0
  }

  lemma TransactionErrorIsCheck(cats: seq<Category>, t: InputTransaction, i: nat)
    ensures TransactionError(Ids(cats), LeafIds(cats), t, i).None? <==> TransactionWellFormed(cats, t)
  {
  }

  /** The loop over transactions from position `i`, against the id lists built
      before it: the first failing transaction decides. */
  function CheckTransactions(ids: seq<string>, leafIds: seq<string>, txs: seq<InputTransaction>, i: nat): (r: Outcome)
    requires i <= |txs|
    ensures r.Fail? ==> StageOf(r.error) == 8
    decreases |txs| - i
  {
    if i == |txs| then Pass
    else
      match TransactionError(ids, leafIds, txs[i], i)
      case Some(e) => Fail(e)
      case None => CheckTransactions(ids, leafIds, txs, i + 1)
  }

  /** The loop passes exactly when no transaction from position `i` on has an error. */
  lemma {:induction false} CheckTransactionsPass(ids: seq<string>, leafIds: seq<string>, txs: seq<InputTransaction>, i: nat)
    requires i <= |txs|
    ensures CheckTransactions(ids, leafIds, txs, i).Pass? <==> forall k :: i <= k < |txs| ==> TransactionError(ids, leafIds, txs[k], k).None?
    decreases |txs| - i
  {
    if i < |txs| {
      CheckTransactionsPass(ids, leafIds, txs, i + 1);
    }
  }

  /** A failing loop reports the error of its first transaction that has one. */
  lemma {:induction false} FirstError(ids: seq<string>, leafIds: seq<string>, txs: seq<InputTransaction>, i: nat) returns (k: nat)
    requires i <= |txs| && CheckTransactions(ids, leafIds, txs, i).Fail?
    ensures i <= k < |txs| && Some(CheckTransactions(ids, leafIds, txs, i).error) == TransactionError(ids, leafIds, txs[k], k)
    ensures forall j :: i <= j < k ==> TransactionError(ids, leafIds, txs[j], j).None?
    decreases |txs| - i
  {
    if TransactionError(ids, leafIds, txs[i], i).None? {
      k := FirstError(ids, leafIds, txs, i + 1);
    } else {
      k := i;
    }
  }

  /** The loop passes exactly when every transaction from position `i` on is
      well formed. */
  lemma TransactionsPass(cats: seq<Category>, txs: seq<InputTransaction>, i: nat)
    requires i <= |txs|
    ensures CheckTransactions(Ids(cats), LeafIds(cats), txs, i).Pass? <==> forall k :: i <= k < |txs| ==> TransactionWellFormed(cats, txs[k])
  {
    CheckTransactionsPass(Ids(cats), LeafIds(cats), txs, i);
    forall k | i <= k < |txs|
      ensures TransactionError(Ids(cats), LeafIds(cats), txs[k], k).None? <==> TransactionWellFormed(cats, txs[k])
    {
      TransactionErrorIsCheck(cats, txs[k], k);
    }
  }

  /** A failing loop reports the first failing transaction, with the first
      check that transaction fails. */
  lemma FirstFailingTransaction(cats: seq<Category>, txs: seq<InputTransaction>, i: nat)
    requires i <= |txs| && CheckTransactions(Ids(cats), LeafIds(cats), txs, i).Fail?
    ensures exists k :: (i <= k < |txs| && !TransactionWellFormed(cats, txs[k])
      && (forall j :: i <= j < k ==> TransactionWellFormed(cats, txs[j]))
      && Some(CheckTransactions(Ids(cats), LeafIds(cats), txs, i).error) == TransactionError(Ids(cats), LeafIds(cats), txs[k], k))
  {
    var k := FirstError(Ids(cats), LeafIds(cats), txs, i);
    TransactionErrorIsCheck(cats, txs[k], k);
    forall j | i <= j < k
      ensures TransactionWellFormed(cats, txs[j])
    {
      TransactionErrorIsCheck(cats, txs[j], j);
    }
  }

  lemma AllTransactionsChecked(cats: seq<Category>, txs: seq<InputTransaction>)
    ensures CheckTransactions(Ids(cats), LeafIds(cats), txs, 0).Pass? <==> forall t :: t in txs ==> TransactionWellFormed(cats, t)
  {
    TransactionsPass(cats, txs, 0);
    assert forall t :: t in txs ==> exists k :: 0 <= k < |txs| && txs[k] == t;
  }

  /** The invariants of a valid ledger, one per stage of `validateInput`, in the
      order in which the checks run. */
  predicate StageHolds(d: InputData, stage: nat)
  {
    match stage
    case 1 => forall k :: 0 <= k < |d.categories| ==> CategoryWellFormed(d.categories[k])
    case 2 => FirstNamed(d.categories, PREVIOUS_YEAR).Some?
    case 3 => FirstNamed(d.categories, NEXT_YEAR).Some?
    case 4 => CountFor(d, PREVIOUS_YEAR) == 1
    case 5 => CountFor(d, NEXT_YEAR) == 1
    case 6 => TotalIncome(d) == TotalExpense(d)
    case 7 => |Roots(d.categories)| == 1
    case _ => forall t :: t in d.transactions ==> TransactionWellFormed(d.categories, t)
  }

  const STAGES: nat := 8

  /** The stage whose check raises the error. */
  function StageOf(e: ValidationError): nat
  {
    match e
    case CategoryMissingField(_) => 1
    case InvalidDirection(_) => 1
    case MissingPreviousYearCategory => 2
    case MissingNextYearCategory => 3
    case PreviousYearTransactionCount(_) => 4
    case NextYearTransactionCount(_) => 5
    case Unbalanced(_, _) => 6
    case RootCategoryCount(_) => 7
    case _ => 8
  }

  /** A ledger passing every stage. */
  predicate ValidInput(d: InputData)
  {
    forall s :: 1 <= s <= STAGES ==> StageHolds(d, s)
  }

  /** The check run at one stage. */
  function StageCheck(d: InputData, stage: nat): (r: Outcome)
    requires 1 <= stage <= STAGES
    ensures r.Pass? <==> StageHolds(d, stage)
    ensures r.Fail? ==> StageOf(r.error) == stage
    ensures r.Fail? && r.error.Unbalanced? ==> r.error == Unbalanced(TotalIncome(d), TotalExpense(d))
    ensures r.Fail? && r.error.PreviousYearTransactionCount? ==> r.error.count == CountFor(d, PREVIOUS_YEAR)
    ensures r.Fail? && r.error.NextYearTransactionCount? ==> r.error.count == CountFor(d, NEXT_YEAR)
    ensures r.Fail? && r.error.RootCategoryCount? ==> r.error.count == |Roots(d.categories)|
  {
    match stage
    case 1 => CheckCategories(d.categories, 0)
    case 2 => if FirstNamed(d.categories, PREVIOUS_YEAR).None? then Fail(MissingPreviousYearCategory) else Pass
    case 3 => if FirstNamed(d.categories, NEXT_YEAR).None? then Fail(MissingNextYearCategory) else Pass
    case 4 =>
      var n := CountFor(d, PREVIOUS_YEAR);
      if n != 1 then Fail(PreviousYearTransactionCount(n)) else Pass
    case 5 =>
      var n := CountFor(d, NEXT_YEAR);
      if n != 1 then Fail(NextYearTransactionCount(n)) else Pass
    case 6 => if TotalIncome(d) != TotalExpense(d) then Fail(Unbalanced(TotalIncome(d), TotalExpense(d))) else Pass
    case 7 => if |Roots(d.categories)| != 1 then Fail(RootCategoryCount(|Roots(d.categories)|)) else Pass
    case _ =>
      AllTransactionsChecked(d.categories, d.transactions);
      CheckTransactions(Ids(d.categories), LeafIds(d.categories), d.transactions, 0)
  }

  /** The stages from `stage` on, in order; the first failure stops the chain. */
  function CheckFrom(d: InputData, stage: nat): (r: Outcome)
    requires 1 <= stage <= STAGES + 1
    ensures r.Pass? <==> forall s :: stage <= s <= STAGES ==> StageHolds(d, s)
    ensures r.Fail? ==> stage <= StageOf(r.error) <= STAGES && r == StageCheck(d, StageOf(r.error))
    ensures r.Fail? ==> forall s :: stage <= s < StageOf(r.error) ==> StageHolds(d, s)
    decreases STAGES + 1 - stage
  {
    if stage > STAGES then Pass
    else
      var r := StageCheck(d, stage);
      if r.Fail? then r else CheckFrom(d, stage + 1)
  }

  /** `validateInput`: accepts exactly the ledgers meeting every invariant, and
      otherwise reports the first stage that fails, with its numbers. */
  function Validate(d: InputData): (r: Outcome)
    ensures r.Pass? <==> ValidInput(d)
    ensures r.Fail? ==> 1 <= StageOf(r.error) <= STAGES && !StageHolds(d, StageOf(r.error))
    ensures r.Fail? ==> forall s :: 1 <= s < StageOf(r.error) ==> StageHolds(d, s)
    ensures r.Fail? && r.error.Unbalanced? ==> r.error == Unbalanced(TotalIncome(d), TotalExpense(d))
    ensures r.Fail? && r.error.PreviousYearTransactionCount? ==> r.error.count == CountFor(d, PREVIOUS_YEAR)
    ensures r.Fail? && r.error.NextYearTransactionCount? ==> r.error.count == CountFor(d, NEXT_YEAR)
    ensures r.Fail? && r.error.RootCategoryCount? ==> r.error.count == |Roots(d.categories)|
  {
    CheckFrom(d, 1)
  }
}
