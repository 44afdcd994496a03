# Financial tracker service layer, in Dafny

This project models the two services of a small personal-finance tracker.
`CategoryServiceImpl` manages income and expense categories.
`TransactionServiceImpl` manages transactions, lists them, and computes a
per-category expense summary.

The model replaces the database with two tables, one per repository. Each
table is a map from identifier to row, plus the next identity value, held
by a class whose methods (`Insert`, `Update`, `DeleteById`) stand for
`save` and `deleteById`. The derived queries (`findByName`, `findByType`,
`findByCategory`, `existsByCategoryId`, `findAllByOrderByTimeDesc`) are
functions over the rows.

Each service is a class holding both repositories. A call that changes the
store is a method with a `modifies` clause on the one table it writes. An
operation that only reads is a function over the rows.

Every service method keeps the invariant `Repository.Consistent`:
- category names are unique;
- every transaction's category reference resolves to a stored category;
- every row is stored under its own identifier, and identifiers are positive
  and below the next identity value.

Both services are `@Transactional`. So a call that fails leaves both tables
as they were, including the updating setters that ran before a failure. A
failed call is modelled as an `Err` return with the tables unchanged.

Amounts are integers in cents. The amount column has scale 2, so sums are
exact. Time is an integer instant, and "now" is a parameter of
`CreateTransaction`. Null request fields and null columns are `Option`
values.

Errors are the datatype `Entities.Error`:
- `NotFound` stands for `ResourceNotFoundException`.
- `Duplicate` stands for `DuplicateResourceException`.
- `BusinessLogic` stands for `BusinessLogicException`.
- `Unclassified` stands for any other exception, thrown by the store or the
  runtime.

For a null category identifier, the message `createTransaction` raises
("Category id cannot be null") reads like a validation error. The code
throws `ResourceNotFoundException`, though, so the model returns
`NotFound`.

Three behaviours follow from the code and the entity mappings:
- A null category identifier in an update request always differs from the
  current one. The service then passes null to `findById`, which throws
  (`Unclassified`).
- A null time in an update request is written to a `NOT NULL` column. The
  store rejects it, and the update rolls back (`Unclassified`).
- A null amount among an EXPENSE category's transactions makes the
  `BigDecimal` addition in the summary throw (`Unclassified`).

One modelling choice fixes an order the code leaves open. The queries
`findAll`, `findByType` and `findByCategory` have no `ORDER BY`, so the
store may return rows in any order. The model reads rows in identifier
order. The in-memory sort of the summary is stable, and the model takes
`findAllByOrderByTimeDesc` as a stable sort too. So, in the model, summary
rows with equal totals, and transactions with equal times, come in
identifier order.

Files:
- `entities.dfy` holds the rows, the requests, the summary row, and the
  errors.
- `sorting.dfy` holds a stable sort, largest key first, with its
  permutation, order and tie-break properties.
- `repository.dfy` holds the tables, the derived queries, and the store
  invariants.
- `category_service.dfy` holds `CategoryServiceImpl`.
- `transaction_service.dfy` holds `TransactionServiceImpl` and the expense
  summary.

## Model

Source paths are relative to the repository root.

| member | source | states |
|---|---|---|
| CategoryService.CategoryServiceImpl.CreateCategory | src/main/java/com/tipomeow/financial_tracker/services/CategoryServiceImpl.java:31-39 | Fails with Duplicate exactly when some stored category already has the requested name, and then changes nothing. Otherwise it adds exactly one category, with the requested name and type. Its identifier is the next identity value, which then advances by one, so no identifier is handed out twice, even after a deletion. The round trip through `GetById` returns it. Transactions are untouched, and name uniqueness and referential integrity still hold. |
| CategoryService.GetAllCategories | src/main/java/com/tipomeow/financial_tracker/services/CategoryServiceImpl.java:43-46 | Every stored category appears, none twice (the length equals the table size), and nothing else appears; they come in identifier order. |
| Repository.GetById | src/main/java/com/tipomeow/financial_tracker/services/CategoryServiceImpl.java:50-56 | `getCategoryById`, and equally `getTransactionById` (TransactionServiceImpl.java:58-64): returns the stored row for a present identifier, and NotFound exactly when the identifier is absent. |
| CategoryService.CategoryServiceImpl.UpdateCategory | src/main/java/com/tipomeow/financial_tracker/services/CategoryServiceImpl.java:59-75 | Fails with NotFound for an absent identifier. Fails with Duplicate when the name changes to one already held, and then changes nothing. Keeping the current name skips the check and succeeds. On success only the target's name and type change; its identifier and every other category are kept, the identity value does not move, transactions are untouched, and names stay unique. |
| CategoryService.CategoryServiceImpl.DeleteCategory | src/main/java/com/tipomeow/financial_tracker/services/CategoryServiceImpl.java:79-87 | Fails with NotFound for an absent identifier. Fails with BusinessLogic while any transaction references the category. Otherwise it removes exactly that category, so a later lookup is NotFound and no transaction is left dangling. The identity value does not move. |
| Repository.FindByName | src/main/java/com/tipomeow/financial_tracker/repository/CategoryRepository.java:11 | Finds a category exactly when some stored category has that name, and what it finds is a stored category with that name. |
| Repository.FindByType | src/main/java/com/tipomeow/financial_tracker/repository/CategoryRepository.java:12 | Holds exactly the stored categories of the given type, in identifier order. |
| Repository.FindByCategory | src/main/java/com/tipomeow/financial_tracker/repository/TransactionRepository.java:10 | Holds exactly the stored transactions that reference the category, in identifier order. |
| Repository.ExistsByCategoryId | src/main/java/com/tipomeow/financial_tracker/repository/TransactionRepository.java:12 | True exactly when some stored transaction references the category. |
| Repository.FindAllByOrderByTimeDesc | src/main/java/com/tipomeow/financial_tracker/repository/TransactionRepository.java:13 | Holds every stored transaction, none twice and nothing else, with times non-increasing. |
| Repository.FindAll | src/main/java/com/tipomeow/financial_tracker/repository/CategoryRepository.java:10 | `findAll`: every row of a table once, and nothing else. |
| Repository.FindAllCategoriesAscending | src/main/java/com/tipomeow/financial_tracker/repository/CategoryRepository.java:10 | In a table whose rows are keyed by their own identifier, `findAll` returns the categories in strictly increasing identifier order. |
| Repository.FindAllTransactionsAscending | src/main/java/com/tipomeow/financial_tracker/repository/TransactionRepository.java:9 | In a table whose rows are keyed by their own identifier, `findAll` returns the transactions in strictly increasing identifier order. |
| Repository.SortedIds | src/main/java/com/tipomeow/financial_tracker/repository/CategoryRepository.java:10 | The identifiers of a table in strictly increasing order, each exactly once: the order in which `findAll` reads the category table, and the transaction table (TransactionRepository.java:9). |
| Repository.StoredUnderOwnId | src/main/java/com/tipomeow/financial_tracker/entity/Category.java:10-12 | A stored category is found under its own identifier. |
| Repository.PutKeepsNamesUnique | src/main/java/com/tipomeow/financial_tracker/entity/Category.java:16-17 | Storing a category under an identifier keeps names unique when no other stored category holds its name. |
| Repository.CategoryRepository.Insert | src/main/java/com/tipomeow/financial_tracker/services/CategoryServiceImpl.java:37 | `save` of a new category: it is stored under the next identity value, which advances by one; no other row changes. |
| Repository.CategoryRepository.Update | src/main/java/com/tipomeow/financial_tracker/services/CategoryServiceImpl.java:73 | `save` of a stored category: exactly its row is overwritten; the identity value does not move. |
| Repository.CategoryRepository.DeleteById | src/main/java/com/tipomeow/financial_tracker/services/CategoryServiceImpl.java:86 | `deleteById`: exactly that row is removed; the identity value does not move. |
| Repository.TransactionRepository.Insert | src/main/java/com/tipomeow/financial_tracker/services/TransactionServiceImpl.java:46 | `save` of a new transaction: it is stored under the next identity value, which advances by one; no other row changes. |
| Repository.TransactionRepository.Update | src/main/java/com/tipomeow/financial_tracker/services/TransactionServiceImpl.java:83 | `save` of a stored transaction: exactly its row is overwritten; the identity value does not move. |
| Repository.TransactionRepository.DeleteById | src/main/java/com/tipomeow/financial_tracker/services/TransactionServiceImpl.java:92 | `deleteById`: exactly that row is removed; the identity value does not move. |
| Sorting.SortDesc | src/main/java/com/tipomeow/financial_tracker/services/TransactionServiceImpl.java:112 | The sorted result is a permutation of its input, ordered by key, largest first. |
| Sorting.InsertDesc | src/main/java/com/tipomeow/financial_tracker/services/TransactionServiceImpl.java:112 | Inserting one element adds exactly that element and keeps a sequence ordered by key, largest first. |
| Sorting.SortDescTieBreak | src/main/java/com/tipomeow/financial_tracker/services/TransactionServiceImpl.java:112 | The sort is stable. Elements with equal keys keep their input order, and no two results share a tie value. |
| TransactionService.TransactionServiceImpl.CreateTransaction | src/main/java/com/tipomeow/financial_tracker/services/TransactionServiceImpl.java:33-48 | Fails with NotFound, changing nothing, when the category identifier is null or unknown. Otherwise it adds exactly one transaction, under the next identity value, which then advances by one. The new transaction references the requested category and carries the request's description and amount. Its time is the request's time, or `now` when that is null. The round trip through `GetById` returns it. Categories are untouched, and both invariants still hold. |
| TransactionService.GetAllTransactions | src/main/java/com/tipomeow/financial_tracker/services/TransactionServiceImpl.java:51-54 | A permutation of all stored transactions: every one once, nothing else. They come most recent first; equal times come in identifier order. |
| TransactionService.TransactionServiceImpl.UpdateTransaction | src/main/java/com/tipomeow/financial_tracker/services/TransactionServiceImpl.java:67-85 | Fails with NotFound for an absent transaction. A null category identifier is Unclassified. A changed identifier naming no category is NotFound. A null time is Unclassified. Every failure leaves the store unchanged. Otherwise the row becomes exactly the request's description, amount, time and category, nulls included, under the same identifier; nothing else changes, the identity value does not move, and both invariants hold. |
| TransactionService.ResolveCategory | src/main/java/com/tipomeow/financial_tracker/services/TransactionServiceImpl.java:76-82 | Without a lookup the current category is kept. With one, it succeeds exactly when the requested identifier is non-null and stored, and then yields it. A null identifier is Unclassified; an unknown one is NotFound. |
| TransactionService.IdentityTestAgreesWithValueTest | src/main/java/com/tipomeow/financial_tracker/services/TransactionServiceImpl.java:76 | The `Long` identity test that decides whether to look the category up gives the same outcome as comparing values, as long as the current category is stored. |
| TransactionService.TransactionServiceImpl.DeleteTransaction | src/main/java/com/tipomeow/financial_tracker/services/TransactionServiceImpl.java:88-93 | Fails with NotFound, changing nothing, for an absent identifier. Otherwise it removes exactly that transaction, so a later lookup is NotFound. The identity value does not move. Categories are untouched. |
| TransactionService.GetCategoryExpenseSummary | src/main/java/com/tipomeow/financial_tracker/services/TransactionServiceImpl.java:96-116 | Fails (Unclassified) exactly when some transaction of an EXPENSE category has a null amount. Otherwise: every row is for an EXPENSE category, never INCOME, with its name and the sum of its transactions' amounts from zero; every EXPENSE category has a row, totals of 0 included; no category appears twice; rows are ordered by total, largest first, and equal totals come in identifier order; the totals add up to the sum of the amounts of all EXPENSE-category transactions. |
| TransactionService.SumAmountsFoldsLeft | src/main/java/com/tipomeow/financial_tracker/services/TransactionServiceImpl.java:102-104 | `SumAmounts` models the `reduce` from zero: the sum of a non-empty list is the sum of all but the last amount plus the last, which is how the left fold accumulates. |
| TransactionService.Totals | src/main/java/com/tipomeow/financial_tracker/services/TransactionServiceImpl.java:98-111 | The `map` step: one row per category, in the same order, carrying its identifier, its name and the sum of the amounts of its transactions. |
| TransactionService.ExpenseRows | src/main/java/com/tipomeow/financial_tracker/services/TransactionServiceImpl.java:97-113 | The map plus `sorted`: as many rows as EXPENSE categories, a rearrangement of the per-category rows, ordered by total, largest first. |
| TransactionService.ExpenseRowsDescribeCategories | src/main/java/com/tipomeow/financial_tracker/services/TransactionServiceImpl.java:97-111 | Each summary row names an EXPENSE category, carries its name, and carries the sum of the amounts of that category's transactions. |
| TransactionService.ExpenseRowsCoverCategories | src/main/java/com/tipomeow/financial_tracker/services/TransactionServiceImpl.java:97-111 | Every EXPENSE category has a summary row. |
| TransactionService.ExpenseRowsTieBreak | src/main/java/com/tipomeow/financial_tracker/services/TransactionServiceImpl.java:97-113 | Summary rows are ordered by total, largest first, and equal totals come in identifier order; no category appears twice. |
| TransactionService.ExpenseRowsSum | src/main/java/com/tipomeow/financial_tracker/services/TransactionServiceImpl.java:96-116 | The totals of the summary add up to the sum of the amounts of all transactions of EXPENSE categories. |
| TransactionService.NullAmountIsFound | src/main/java/com/tipomeow/financial_tracker/services/TransactionServiceImpl.java:102-104 | A null amount turns up in the summary's additions exactly when some stored transaction of an EXPENSE category has one. |
| TransactionService.SumOfTotals | src/main/java/com/tipomeow/financial_tracker/services/TransactionServiceImpl.java:98-111 | Adding the per-category totals of distinct categories gives the sum over all transactions of those categories. |
| TransactionService.SumSplits | src/main/java/com/tipomeow/financial_tracker/services/TransactionServiceImpl.java:102-104 | The sum over the transactions of one more category splits into that category's sum plus the rest. |
| TransactionService.SortDescKeepsSum | src/main/java/com/tipomeow/financial_tracker/services/TransactionServiceImpl.java:112 | Sorting the summary rows does not change the sum of their totals. |
| TransactionService.GetTransactionsByCategory | src/main/java/com/tipomeow/financial_tracker/services/TransactionServiceImpl.java:119-127 | Fails with NotFound exactly when the category is unknown. Otherwise it returns exactly the transactions that reference the category, in identifier order. |

## Left out

- Controllers, the exception handler, and the mappers are not part of this model. They route HTTP requests, map exceptions to responses, and copy fields between entities and DTOs. The model uses the entity records in place of the DTOs.
- Error message texts are left out; only the kind of error is modelled.
- The real clock (`Instant.now()`) is left out: `CreateTransaction` takes "now" as a parameter.
- Concurrency and transaction isolation are left out. Every call is atomic and runs alone.
- The bean-validation rule that amounts are at least 0 (`@DecimalMin`) is left out, as are the column length limits. The framework enforces them, if at all; no service code checks them.
- Precision 10 of the amount column is left out. Amounts and sums are unbounded integers in cents, so an overflow of the column is not modelled.
- Null category names and types are left out. Requests always carry a name and a type.
- `Long` overflow of identity values is left out; identifiers are unbounded integers.
- Name comparison follows Java `String.equals`. A database collation that compares names differently (for example, case-insensitively) is not modelled.
- `findByCategoryId` (`TransactionRepository.java:11`) is left out; no service calls it.
- The order of `findAll`, `findByType` and `findByCategory` is unspecified by the store. The model reads rows in identifier order.
- `findAllByOrderByTimeDesc` does not specify how equal times are ordered either. The model takes a stable sort of the identifier-ordered rows.
- TransactionService.TransactionServiceImpl.UpdateTransaction: the category comparison is by value, not by `Long` identity. `IdentityTestAgreesWithValueTest` shows the outcome is the same while the current category is stored.
- TransactionService.TransactionServiceImpl.UpdateTransaction: a null time is modelled as a rejected write (`Unclassified`), which stands for the `NOT NULL` constraint of the time column; the exact exception is not modelled.
