/**
 * `TransactionServiceImpl`: the transaction lifecycle, the lookups, and the
 * per-category expense summary. Every call runs as one store transaction:
 * a call that fails leaves both tables as they were, including the fields
 * already overwritten on the loaded row before the failure.
 */
module TransactionService {
  import opened Entities
  import opened Sorting
  import opened Repository

  // ---------------------------------------------------------------------
  // Lookups

  /**
   * `getAllTransactions`: every stored transaction exactly once, most recent
   * first; transactions with the same time come in identifier order.
   */
  function GetAllTransactions(rows: map<Id, Transaction>): (r: seq<Transaction>)
    requires TransactionsKeyed(rows)
    ensures |r| == |rows|
    ensures forall t :: t in r <==> t in rows.Values
    ensures SortedDescThenAsc(r, TimeOf, TransactionKey)
    ensures DistinctBy(r, TransactionKey)
  {
    FindAllTransactionsAscending(rows);
    SortDescTieBreak(FindAll(rows), TimeOf, TransactionKey);
    FindAllByOrderByTimeDesc(rows)
  }

  /**
   * `getTransactionsByCategory`: NotFound for an unknown category; otherwise
   * exactly the transactions that reference it, in identifier order.
   */
  function GetTransactionsByCategory(categories: map<Id, Category>, transactions: map<Id, Transaction>, categoryId: Id)
    : (r: Result<seq<Transaction>>)
    ensures r.Ok? <==> categoryId in categories
    ensures r.Err? ==> r.error == NotFound
    ensures r.Ok? ==> forall t :: t in r.value <==> t in transactions.Values && t.categoryId == categoryId
    ensures r.Ok? && TransactionsKeyed(transactions) ==> StrictlyAscending(r.value, TransactionKey)
  {
    if categoryId in categories then Ok(FindByCategory(transactions, categoryId)) else Err(NotFound)
  }

  // ---------------------------------------------------------------------
  // Re-resolving the category on update

  /**
   * The category identifier an updated row ends up with. With `lookUp`
   * false the current category is kept. Otherwise the requested identifier
   * is looked up: a null one is refused by `findById` with an exception the
   * service does not classify, and an unknown one is NotFound.
   */
  function ResolveCategory(categories: map<Id, Category>, current: Id, requested: Option<Id>, lookUp: bool)
    : (r: Result<Id>)
    ensures !lookUp ==> r == Ok(current)
    ensures lookUp ==> (r.Ok? <==> requested.Some? && requested.value in categories)
    ensures lookUp && r.Ok? ==> r.value == requested.value
    ensures lookUp && requested.None? ==> r == Err(Unclassified)
    ensures lookUp && requested.Some? && requested.value !in categories ==> r == Err(NotFound)
  {
    if !lookUp then Ok(current)
    else if requested.None? then Err(Unclassified)
    else if requested.value in categories then Ok(requested.value)
    else Err(NotFound)
  }

  /**
   * The source decides whether to look the category up with `!=` on two
   * `Long` objects, which compares identities. Identical objects hold equal
   * values, and equal values that are not identical only cause a lookup
   * that finds the current category again. So, as long as the current
   * category is stored, deciding by identity and deciding by value agree.
   */
  lemma IdentityTestAgreesWithValueTest(categories: map<Id, Category>, current: Id, requested: Option<Id>, identical: bool)
    requires current in categories
    requires identical ==> requested == Some(current)
    ensures ResolveCategory(categories, current, requested, !identical)
         == ResolveCategory(categories, current, requested, requested != Some(current))
  {
  }

  // ---------------------------------------------------------------------
  // The expense summary

  /** The amount a transaction adds to a total; a null amount never reaches a sum (see the summary). */
  function AmountOf(t: Transaction): Cents {
    if t.amount.Some? then t.amount.value else 0
  }

  /** `reduce(BigDecimal.ZERO, BigDecimal::add)` over the amounts. */
  function SumAmounts(ts: seq<Transaction>): Cents {
    if ts == [] then 0 else AmountOf(ts[0]) + SumAmounts(ts[1..])
  }

  /**
   * The stream folds from the left, starting at zero and adding each amount
   * in turn; `SumAmounts` nests to the right. Both give the same sum.
   */
  lemma {:induction false} SumAmountsFoldsLeft(ts: seq<Transaction>)
    requires ts != []
    ensures SumAmounts(ts) == SumAmounts(ts[..|ts| - 1]) + AmountOf(ts[|ts| - 1])
  {
    if |ts| > 1 {
      SumAmountsFoldsLeft(ts[1..]);
      assert ts[1..][..|ts[1..]| - 1] == ts[..|ts| - 1][1..];
    }
  }

  function TotalOf(e: CategoryExpenseSummary): int { e.totalExpenses }

  function SummaryKey(e: CategoryExpenseSummary): int { e.categoryId }

  function SumTotals(es: seq<CategoryExpenseSummary>): Cents {
    if es == [] then 0 else es[0].totalExpenses + SumTotals(es[1..])
  }

  /** The identifiers of the EXPENSE categories. */
  function ExpenseIds(categories: map<Id, Category>): set<Id> {
    set k | k in categories && categories[k].kind == Expense
  }

  /** The transactions of `ts` whose category is one of `ids`, in order. */
  function InCategories(ts: seq<Transaction>, ids: set<Id>): (r: seq<Transaction>)
    ensures forall t :: t in r <==> t in ts && t.categoryId in ids
  {
    if ts == [] then []
    else
      var rest := InCategories(ts[1..], ids);
      assert forall t :: t in ts ==> t == ts[0] || t in ts[1..];
      if ts[0].categoryId in ids then [ts[0]] + rest else rest
  }

  /** One summary row per category of `cs`, in the same order. */
  function Totals(cs: seq<Category>, transactions: map<Id, Transaction>): (r: seq<CategoryExpenseSummary>)
    ensures |r| == |cs|
    ensures forall i :: 0 <= i < |r| ==>
      r[i] == CategoryExpenseSummary(cs[i].id, cs[i].name, SumAmounts(FindByCategory(transactions, cs[i].id)))
  {
    if cs == [] then []
    else
      var c := cs[0];
      [CategoryExpenseSummary(c.id, c.name, SumAmounts(FindByCategory(transactions, c.id)))]
        + Totals(cs[1..], transactions)
  }

  /** The category identifiers of `cs`. */
  function IdsOf(cs: seq<Category>): set<Id> {
    set c | c in cs :: c.id
  }

  /** Splitting the transactions of `{c} + ids` into those of `c` and those of `ids`. */
  lemma {:induction false} SumSplits(ts: seq<Transaction>, c: Id, ids: set<Id>)
    requires c !in ids
    ensures SumAmounts(InCategories(ts, {c} + ids)) == SumAmounts(OfCategory(ts, c)) + SumAmounts(InCategories(ts, ids))
  {
    if ts != [] {
      SumSplits(ts[1..], c, ids);
    }
  }

  /** The sum, category by category, of the amounts of the transactions of `ts` in that category. */
  function SumPerCategory(cs: seq<Category>, ts: seq<Transaction>): Cents {
    if cs == [] then 0 else SumAmounts(OfCategory(ts, cs[0].id)) + SumPerCategory(cs[1..], ts)
  }

  lemma {:induction false} TotalsSumPerCategory(cs: seq<Category>, transactions: map<Id, Transaction>)
    ensures SumTotals(Totals(cs, transactions)) == SumPerCategory(cs, FindAll(transactions))
  {
    if cs != [] {
      TotalsSumPerCategory(cs[1..], transactions);
      assert Totals(cs, transactions)[1..] == Totals(cs[1..], transactions);
    }
  }

  lemma HeadIdIsNew(cs: seq<Category>)
    requires cs != [] && StrictlyAscending(cs, CategoryKey)
    ensures IdsOf(cs) == {cs[0].id} + IdsOf(cs[1..])
    ensures cs[0].id !in IdsOf(cs[1..])
    ensures StrictlyAscending(cs[1..], CategoryKey)
  {
    assert cs == [cs[0]] + cs[1..];
    forall c | c in cs[1..] ensures c.id != cs[0].id {
      var k :| 0 <= k < |cs[1..]| && cs[1..][k] == c;
      assert cs[k + 1] == c;
    }
  }

  /** Summing category by category over distinct categories is summing over all their transactions. */
  lemma {:induction false} SumPerCategoryIsFilteredSum(cs: seq<Category>, ts: seq<Transaction>)
    requires StrictlyAscending(cs, CategoryKey)
    ensures SumPerCategory(cs, ts) == SumAmounts(InCategories(ts, IdsOf(cs)))
  {
    if cs == [] {
      assert IdsOf(cs) == {};
      EmptyFilterSumsToZero(ts);
    } else {
      HeadIdIsNew(cs);
      SumPerCategoryIsFilteredSum(cs[1..], ts);
      SumSplits(ts, cs[0].id, IdsOf(cs[1..]));
    }
  }

  /** Summing the per-category totals is summing over the transactions of all those categories. */
  lemma SumOfTotals(cs: seq<Category>, transactions: map<Id, Transaction>)
    requires StrictlyAscending(cs, CategoryKey)
    ensures SumTotals(Totals(cs, transactions)) == SumAmounts(InCategories(FindAll(transactions), IdsOf(cs)))
  {
    TotalsSumPerCategory(cs, transactions);
    SumPerCategoryIsFilteredSum(cs, FindAll(transactions));
  }

  lemma {:induction false} EmptyFilterSumsToZero(ts: seq<Transaction>)
    ensures SumAmounts(InCategories(ts, {})) == 0
  {
    if ts != [] {
      EmptyFilterSumsToZero(ts[1..]);
    }
  }

  lemma {:induction false} InsertDescKeepsSum(x: CategoryExpenseSummary, s: seq<CategoryExpenseSummary>)
    ensures SumTotals(InsertDesc(x, s, TotalOf)) == x.totalExpenses + SumTotals(s)
  {
    if s != [] && TotalOf(x) < TotalOf(s[0]) {
      InsertDescKeepsSum(x, s[1..]);
      assert InsertDesc(x, s, TotalOf)[1..] == InsertDesc(x, s[1..], TotalOf);
    } else {
      assert InsertDesc(x, s, TotalOf)[1..] == s;
    }
  }

  /** Sorting the rows does not change the sum of their totals. */
  lemma {:induction false} SortDescKeepsSum(s: seq<CategoryExpenseSummary>)
    ensures SumTotals(SortDesc(s, TotalOf)) == SumTotals(s)
  {
    if s != [] {
      SortDescKeepsSum(s[1..]);
      InsertDescKeepsSum(s[0], SortDesc(s[1..], TotalOf));
    }
  }

  /** The transactions whose category is of type EXPENSE. */
  function ExpenseTransactions(categories: map<Id, Category>, transactions: map<Id, Transaction>): seq<Transaction> {
    InCategories(FindAll(transactions), ExpenseIds(categories))
  }

  /** Some transaction of an EXPENSE category has a null amount. */
  predicate NullExpenseAmount(categories: map<Id, Category>, transactions: map<Id, Transaction>) {
    exists t :: t in FindAll(transactions) && t.categoryId in ExpenseIds(categories) && t.amount.None?
  }

  /**
   * `getCategoryExpenseSummary`: for every EXPENSE category, in identifier
   * order, the sum of the amounts of its transactions; then a stable sort by
   * that total, largest first. A null amount among those transactions makes
   * the addition throw.
   */
  function GetCategoryExpenseSummary(categories: map<Id, Category>, transactions: map<Id, Transaction>)
    : (r: Result<seq<CategoryExpenseSummary>>)
    requires CategoriesKeyed(categories)
    ensures r.Ok? <==> forall k :: k in transactions && transactions[k].categoryId in ExpenseIds(categories)
                                   ==> transactions[k].amount.Some?
    ensures r.Err? ==> r.error == Unclassified
    ensures r.Ok? ==> forall i :: 0 <= i < |r.value| ==>
      && r.value[i].categoryId in ExpenseIds(categories)
      && r.value[i].categoryName == categories[r.value[i].categoryId].name
      && r.value[i].totalExpenses == SumAmounts(FindByCategory(transactions, r.value[i].categoryId))
    ensures r.Ok? ==> forall k :: k in ExpenseIds(categories) ==>
      exists i :: 0 <= i < |r.value| && r.value[i].categoryId == k
    ensures r.Ok? ==> DistinctBy(r.value, SummaryKey)
    ensures r.Ok? ==> SortedDescThenAsc(r.value, TotalOf, SummaryKey)
    ensures r.Ok? ==> SumTotals(r.value) == SumAmounts(ExpenseTransactions(categories, transactions))
  {
    NullAmountIsFound(categories, transactions);
    if NullExpenseAmount(categories, transactions) then
      Err(Unclassified)
    else
      ExpenseRowsDescribeCategories(categories, transactions);
      ExpenseRowsCoverCategories(categories, transactions);
      ExpenseRowsTieBreak(categories, transactions);
      ExpenseRowsSum(categories, transactions);
      Ok(ExpenseRows(categories, transactions))
  }

  /**
   * The summary rows when no amount is missing: the per-category rows of the
   * EXPENSE categories, rearranged by total, largest first.
   */
  function ExpenseRows(categories: map<Id, Category>, transactions: map<Id, Transaction>): (r: seq<CategoryExpenseSummary>)
    ensures |r| == |FindByType(categories, Expense)|
    ensures multiset(r) == multiset(Totals(FindByType(categories, Expense), transactions))
    ensures SortedDesc(r, TotalOf)
  {
    var rows := Totals(FindByType(categories, Expense), transactions);
    var sorted := SortDesc(rows, TotalOf);
    assert |sorted| == |multiset(sorted)| == |multiset(rows)| == |rows|;
    sorted
  }

  lemma ExpenseRowsDescribeCategories(categories: map<Id, Category>, transactions: map<Id, Transaction>)
    requires CategoriesKeyed(categories)
    ensures forall e :: e in ExpenseRows(categories, transactions) ==>
      && e.categoryId in ExpenseIds(categories)
      && e.categoryName == categories[e.categoryId].name
      && e.totalExpenses == SumAmounts(FindByCategory(transactions, e.categoryId))
  {
    var expense := FindByType(categories, Expense);
    TotalsDescribeExpenseCategories(categories, transactions, expense);
    ElementsOfPermutation(ExpenseRows(categories, transactions), Totals(expense, transactions));
  }

  lemma ExpenseRowsCoverCategories(categories: map<Id, Category>, transactions: map<Id, Transaction>)
    requires CategoriesKeyed(categories)
    ensures forall k :: k in ExpenseIds(categories) ==>
      exists i :: 0 <= i < |ExpenseRows(categories, transactions)| && ExpenseRows(categories, transactions)[i].categoryId == k
  {
    var expense := FindByType(categories, Expense);
    var rows := Totals(expense, transactions);
    TotalsCoverExpenseCategories(categories, transactions, expense);
    ElementsOfPermutation(ExpenseRows(categories, transactions), rows);
    CoverageSurvivesSort(categories, rows, ExpenseRows(categories, transactions));
  }

  lemma ExpenseRowsTieBreak(categories: map<Id, Category>, transactions: map<Id, Transaction>)
    requires CategoriesKeyed(categories)
    ensures SortedDescThenAsc(ExpenseRows(categories, transactions), TotalOf, SummaryKey)
    ensures DistinctBy(ExpenseRows(categories, transactions), SummaryKey)
  {
    var expense := FindByType(categories, Expense);
    TotalsAscending(expense, transactions);
    SortDescTieBreak(Totals(expense, transactions), TotalOf, SummaryKey);
  }

  lemma ExpenseRowsSum(categories: map<Id, Category>, transactions: map<Id, Transaction>)
    requires CategoriesKeyed(categories)
    ensures SumTotals(ExpenseRows(categories, transactions)) == SumAmounts(ExpenseTransactions(categories, transactions))
  {
    var expense := FindByType(categories, Expense);
    SortDescKeepsSum(Totals(expense, transactions));
    SumOfTotals(expense, transactions);
    ExpenseIdsOfFindByType(categories, expense);
  }

  lemma NullAmountIsFound(categories: map<Id, Category>, transactions: map<Id, Transaction>)
    ensures NullExpenseAmount(categories, transactions) <==>
      !forall k :: k in transactions && transactions[k].categoryId in ExpenseIds(categories) ==> transactions[k].amount.Some?
  {
    var all := FindAll(transactions);
    if !forall k :: k in transactions && transactions[k].categoryId in ExpenseIds(categories) ==> transactions[k].amount.Some? {
      var k :| k in transactions && transactions[k].categoryId in ExpenseIds(categories) && transactions[k].amount.None?;
      assert transactions[k] in transactions.Values;
      assert transactions[k] in all;
    }
    if NullExpenseAmount(categories, transactions) {
      var t :| t in all && t.categoryId in ExpenseIds(categories) && t.amount.None?;
      assert t in transactions.Values;
    }
  }

  lemma ExpenseIdsOfFindByType(categories: map<Id, Category>, expense: seq<Category>)
    requires CategoriesKeyed(categories)
    requires expense == FindByType(categories, Expense)
    ensures IdsOf(expense) == ExpenseIds(categories)
  {
    forall k | k in ExpenseIds(categories) ensures k in IdsOf(expense) {
      assert categories[k] in categories.Values;
      assert categories[k] in expense;
    }
    forall k | k in IdsOf(expense) ensures k in ExpenseIds(categories) {
      var c :| c in expense && c.id == k;
      assert c in categories.Values;
      var j :| j in categories && categories[j] == c;
    }
  }

  /** The unsorted rows come in identifier order. */
  lemma TotalsAscending(cs: seq<Category>, transactions: map<Id, Transaction>)
    requires StrictlyAscending(cs, CategoryKey)
    ensures StrictlyAscending(Totals(cs, transactions), SummaryKey)
  {
    var rows := Totals(cs, transactions);
    forall i, j | 0 <= i < j < |rows| ensures SummaryKey(rows[i]) < SummaryKey(rows[j]) {
      assert rows[i].categoryId == cs[i].id && rows[j].categoryId == cs[j].id;
    }
  }

  /** Each unsorted row describes an EXPENSE category and the total of its transactions. */
  lemma TotalsDescribeExpenseCategories(
    categories: map<Id, Category>, transactions: map<Id, Transaction>, expense: seq<Category>)
    requires CategoriesKeyed(categories)
    requires forall c :: c in expense <==> c in categories.Values && c.kind == Expense
    ensures forall e :: e in Totals(expense, transactions) ==>
      && e.categoryId in ExpenseIds(categories)
      && e.categoryName == categories[e.categoryId].name
      && e.totalExpenses == SumAmounts(FindByCategory(transactions, e.categoryId))
  {
    var rows := Totals(expense, transactions);
    forall e | e in rows ensures
      && e.categoryId in ExpenseIds(categories)
      && e.categoryName == categories[e.categoryId].name
    {
      var i :| 0 <= i < |rows| && rows[i] == e;
      var c := expense[i];
      assert c in expense;
      StoredUnderOwnId(categories, c);
    }
  }

  /** Every EXPENSE category has an unsorted row. */
  lemma TotalsCoverExpenseCategories(
    categories: map<Id, Category>, transactions: map<Id, Transaction>, expense: seq<Category>)
    requires CategoriesKeyed(categories)
    requires forall c :: c in expense <==> c in categories.Values && c.kind == Expense
    ensures forall k :: k in ExpenseIds(categories) ==>
      exists e :: e in Totals(expense, transactions) && e.categoryId == k
  {
    var rows := Totals(expense, transactions);
    forall k | k in ExpenseIds(categories) ensures exists e :: e in rows && e.categoryId == k {
      assert categories[k] in categories.Values;
      var i :| 0 <= i < |expense| && expense[i] == categories[k];
      assert rows[i] in rows;
    }
  }

  lemma CoverageSurvivesSort(categories: map<Id, Category>, rows: seq<CategoryExpenseSummary>, sorted: seq<CategoryExpenseSummary>)
    requires forall e :: e in rows <==> e in sorted
    requires forall k :: k in ExpenseIds(categories) ==> exists e :: e in rows && e.categoryId == k
    ensures forall k :: k in ExpenseIds(categories) ==> exists i :: 0 <= i < |sorted| && sorted[i].categoryId == k
  {
    forall k | k in ExpenseIds(categories) ensures exists i :: 0 <= i < |sorted| && sorted[i].categoryId == k {
      var e :| e in rows && e.categoryId == k;
      assert e in sorted;
      var i :| 0 <= i < |sorted| && sorted[i] == e;
    }
  }

  // ---------------------------------------------------------------------
  // The service object

  class TransactionServiceImpl {
    const categoryRepository: CategoryRepository
    const transactionRepository: TransactionRepository

    ghost predicate Valid()
      reads categoryRepository, transactionRepository
    {
      Consistent(categoryRepository, transactionRepository)
    }

    constructor (categories: CategoryRepository, transactions: TransactionRepository)
      requires Consistent(categories, transactions)
      ensures categoryRepository == categories && transactionRepository == transactions
      ensures Valid()
    {
      categoryRepository := categories;
      transactionRepository := transactions;
    }

    /**
     * `createTransaction`: NotFound when the category identifier is null or
     * unknown; otherwise exactly one transaction is added, referencing that
     * category and stamped with the request time, or with `now` when the
     * request has none.
     */
    method CreateTransaction(request: TransactionRequest, now: Instant) returns (r: Result<Transaction>)
      requires Valid()
      modifies transactionRepository
      ensures Valid()
      ensures request.categoryId.None? ==> r == Err(NotFound)
      ensures request.categoryId.Some? && request.categoryId.value !in categoryRepository.rows ==> r == Err(NotFound)
      ensures r.Ok? <==> request.categoryId.Some? && request.categoryId.value in categoryRepository.rows
      ensures r.Err? ==> unchanged(transactionRepository)
      ensures r.Ok? ==>
        && r.value.categoryId == request.categoryId.value
        && r.value.description == request.description
        && r.value.amount == request.amount
        && r.value.time == (if request.time.Some? then request.time.value else now)
      ensures r.Ok? ==> r.value.id == old(transactionRepository.nextId) && r.value.id !in old(transactionRepository.rows)
      ensures r.Ok? ==> transactionRepository.nextId == old(transactionRepository.nextId) + 1
      ensures r.Ok? ==> transactionRepository.rows == old(transactionRepository.rows)[r.value.id := r.value]
      ensures r.Ok? ==> GetById(transactionRepository.rows, r.value.id) == Ok(r.value)
      ensures unchanged(categoryRepository)
    {
      if request.categoryId.None? {
        return Err(NotFound);
      }
      var categoryId := request.categoryId.value;
      if categoryId !in categoryRepository.rows {
        return Err(NotFound);
      }
      var time := if request.time.None? then now else request.time.value;
      var saved := transactionRepository.Insert(categoryId, request.description, request.amount, time);
      r := Ok(saved);
    }

    /**
     * `updateTransaction`: a full overwrite of description, amount and time,
     * nulls included. The category is looked up again only when the requested
     * identifier differs from the current one. A null time reaches the
     * store, whose time column refuses it, and the whole update rolls back.
     */
    method UpdateTransaction(id: Id, request: TransactionRequest) returns (r: Result<Transaction>)
      requires Valid()
      modifies transactionRepository
      ensures Valid()
      ensures id !in old(transactionRepository.rows) ==> r == Err(NotFound)
      ensures id in old(transactionRepository.rows) ==>
        var current := old(transactionRepository.rows)[id];
        && (request.categoryId.None? ==> r == Err(Unclassified))
        && ((request.categoryId.Some? && request.categoryId.value != current.categoryId
             && request.categoryId.value !in categoryRepository.rows) ==> r == Err(NotFound))
        && ((request.categoryId.Some? && request.categoryId.value in categoryRepository.rows
             && request.time.None?) ==> r == Err(Unclassified))
        && (request.categoryId.Some? && request.categoryId.value in categoryRepository.rows
            && request.time.Some? ==>
              r == Ok(Transaction(id, request.categoryId.value, request.description, request.amount, request.time.value)))
      ensures r.Err? ==> unchanged(transactionRepository)
      ensures r.Ok? ==> transactionRepository.rows == old(transactionRepository.rows)[id := r.value]
      ensures transactionRepository.nextId == old(transactionRepository.nextId)
      ensures unchanged(categoryRepository)
    {
      if id !in transactionRepository.rows {
        return Err(NotFound);
      }
      var existing := transactionRepository.rows[id];
      var category := ResolveCategory(categoryRepository.rows, existing.categoryId, request.categoryId,
                                      request.categoryId != Some(existing.categoryId));
      if category.Err? {
        return Err(category.error);
      }
      if request.time.None? {
        return Err(Unclassified);
      }
      var updated := existing.(description := request.description, amount := request.amount,
                               time := request.time.value, categoryId := category.value);
      transactionRepository.Update(updated);
      r := Ok(updated);
    }

    /** `deleteTransaction`: NotFound for an absent identifier; otherwise exactly that row is removed. */
    method DeleteTransaction(id: Id) returns (r: Result<()>)
      requires Valid()
      modifies transactionRepository
      ensures Valid()
      ensures r.Ok? <==> id in old(transactionRepository.rows)
      ensures r.Err? ==> r.error == NotFound && unchanged(transactionRepository)
      ensures r.Ok? ==> transactionRepository.rows == old(transactionRepository.rows) - {id}
      ensures transactionRepository.nextId == old(transactionRepository.nextId)
      ensures r.Ok? ==> GetById(transactionRepository.rows, id) == Err(NotFound)
      ensures unchanged(categoryRepository)
    {
      if id !in transactionRepository.rows {
        return Err(NotFound);
      }
      transactionRepository.DeleteById(id);
      r := Ok(());
    }
  }
}
