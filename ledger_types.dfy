/** The shapes read and written by the ledger converter (data/converter.ts). */
module LedgerTypes {
  import opened Wrappers

  const INCOME: string := "income"
  const EXPENSE: string := "expense"
  /** Name of the category holding the carry-forward from the previous year. */
  const PREVIOUS_YEAR: string := "前年度からの繰越"
  /** Name of the category holding the carry-forward to the next year. */
  const NEXT_YEAR: string := "翌年度への繰越"

  /** An input category, a node of the category tree. The direction is kept as
      raw text so that the validator can reject anything but income/expense;
      an empty string stands for a missing field. */
  datatype Category = Category(id: string, name: string, parent: Option<string>, direction: string)

  /** An input transaction; empty strings and a zero value stand for missing fields. */
  datatype InputTransaction = InputTransaction(id: string, categoryId: string, name: string, date: string, value: int)

  datatype InputData = InputData(year: int, categories: seq<Category>, transactions: seq<InputTransaction>)

  datatype Summary = Summary(income: int, expense: int, balance: int, year: int)

  /** One output node per category; `value` is the rolled-up total. */
  datatype Flow = Flow(id: string, name: string, direction: string, value: real, parent: Option<string>)

  /** An output transaction: the category is resolved to its name. */
  datatype TransactionView = TransactionView(id: string, name: string, date: string, value: int, category: string, percentage: real)

  datatype OutputData = OutputData(summary: Summary, flows: seq<Flow>, incomeTransactions: seq<TransactionView>, expenseTransactions: seq<TransactionView>)

  /** JavaScript truthiness of `parent`: null and the empty string both mean "no parent". */
  predicate HasParent(c: Category)
  {
    c.parent.Some? && c.parent.value != ""
  }

  predicate UniqueIds(cats: seq<Category>)
  {
    forall i, j :: 0 <= i < j < |cats| ==> cats[i].id != cats[j].id
  }

  predicate HasId(cats: seq<Category>, id: string)
  {
    exists k :: 0 <= k < |cats| && cats[k].id == id
  }

  /** The id-keyed lookup table built by `reduce` with `acc[c.id] = ...`: a later
      category with the same id overwrites an earlier one. */
  function IndexById(cats: seq<Category>): (m: map<string, nat>)
    ensures forall id :: id in m ==> m[id] < |cats| && cats[m[id]].id == id
  {
    if cats == [] then map[]
    else
      var m := IndexById(cats[..|cats| - 1]);
      assert forall k :: 0 <= k < |cats| - 1 ==> cats[..|cats| - 1][k] == cats[k];
      m[cats[|cats| - 1].id := |cats| - 1]
  }

  /** The table keeps the last category with each id: no later category has it. */
  lemma {:induction false} IndexIsLast(cats: seq<Category>, id: string)
    requires id in IndexById(cats)
    ensures forall j :: IndexById(cats)[id] < j < |cats| ==> cats[j].id != id
  {
    var init := cats[..|cats| - 1];
    if cats[|cats| - 1].id != id {
      IndexIsLast(init, id);
      assert forall j :: 0 <= j < |init| ==> init[j] == cats[j];
    }
  }

  /** Every category id is a key of the table. */
  lemma {:induction false} IndexCovers(cats: seq<Category>, k: nat)
    requires k < |cats|
    ensures cats[k].id in IndexById(cats)
  {
    if k < |cats| - 1 {
      IndexCovers(cats[..|cats| - 1], k);
    }
  }

  /** With unique ids the table maps each category's id to its position. */
  lemma IndexOfUnique(cats: seq<Category>, k: nat)
    requires UniqueIds(cats) && k < |cats|
    ensures cats[k].id in IndexById(cats) && IndexById(cats)[cats[k].id] == k
  {
    IndexCovers(cats, k);
  }

  /** `categoryIdToName`: category id to category name, last category wins. */
  function NameById(cats: seq<Category>): (m: map<string, string>)
    ensures m.Keys == IndexById(cats).Keys
    ensures forall id :: id in m ==> m[id] == cats[IndexById(cats)[id]].name
  {
    if cats == [] then map[]
    else
      var m := NameById(cats[..|cats| - 1]);
      assert forall k :: 0 <= k < |cats| - 1 ==> cats[..|cats| - 1][k] == cats[k];
      m[cats[|cats| - 1].id := cats[|cats| - 1].name]
  }

  /** `parentCategoryIds`: every parent reference that is not null, including
      the empty string, in category order. */
  function ParentIds(cats: seq<Category>): (ids: seq<string>)
    ensures forall id :: id in ids <==> exists k :: 0 <= k < |cats| && cats[k].parent == Some(id)
  {
    if cats == [] then []
    else
      var last := cats[|cats| - 1];
      assert forall k :: 0 <= k < |cats| - 1 ==> cats[..|cats| - 1][k] == cats[k];
      ParentIds(cats[..|cats| - 1]) + (if last.parent.Some? then [last.parent.value] else [])
  }

  /** `categoryIds`: the id of every category, in category order. */
  function Ids(cats: seq<Category>): (ids: seq<string>)
    ensures |ids| == |cats| && forall k :: 0 <= k < |cats| ==> ids[k] == cats[k].id
    ensures forall id :: id in ids <==> HasId(cats, id)
  {
    seq(|cats|, k requires 0 <= k < |cats| => cats[k].id)
  }

  /** `leafCategoryIds`: the ids of the categories no category names as parent. */
  function LeafIds(cats: seq<Category>): (ids: seq<string>)
    ensures forall id :: id in ids <==> HasId(cats, id) && id !in ParentIds(cats)
  {
    FilterOut(Ids(cats), ParentIds(cats))
  }

  /** The elements of `ids` that are not in `drop`, in order. */
  function FilterOut(ids: seq<string>, drop: seq<string>): (r: seq<string>)
    ensures forall id :: id in r <==> id in ids && id !in drop
  {
    if ids == [] then []
    else FilterOut(ids[..|ids| - 1], drop) + (if ids[|ids| - 1] !in drop then [ids[|ids| - 1]] else [])
  }

  /** The positions, below `m`, of the categories without parent (`!c.parent`). */
  function RootsBelow(cats: seq<Category>, m: nat): (rs: seq<nat>)
    requires m <= |cats|
    ensures forall r: nat :: r in rs <==> r < m && !HasParent(cats[r])
    ensures forall i, j :: 0 <= i < j < |rs| ==> rs[i] < rs[j]
  {
    if m == 0 then []
    else
      var earlier := RootsBelow(cats, m - 1);
      assert forall i :: 0 <= i < |earlier| ==> earlier[i] in earlier;
      assert forall i :: 0 <= i < |earlier| ==> earlier[i] < m - 1;
      earlier + (if !HasParent(cats[m - 1]) then [m - 1] else [])
  }

  /** The positions of the categories without parent, in category order. */
  function Roots(cats: seq<Category>): (rs: seq<nat>)
    ensures forall r: nat :: r in rs <==> r < |cats| && !HasParent(cats[r])
    ensures forall i, j :: 0 <= i < j < |rs| ==> rs[i] < rs[j]
  {
    RootsBelow(cats, |cats|)
  }
}
