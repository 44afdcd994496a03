/**
 * The persistent entities of the finance tracker (a category and a
 * transaction), the request records the services accept, the summary row
 * they produce, and the outcome of a service call.
 */
module Entities {

  datatype Option<+T> = None | Some(value: T)

  /** A row identifier, a `Long` assigned by the store's identity column. */
  type Id = int

  /** A monetary amount in cents: the amount column has scale 2, so sums are exact. */
  type Cents = int

  /** A point in time; the service is handed "now" rather than reading a clock. */
  type Instant = int

  datatype CategoryType = Income | Expense

  /** A category row: its name is meant to be unique among all categories. */
  datatype Category = Category(id: Id, name: string, kind: CategoryType)

  /**
   * A transaction row. The category is held as its identifier; description
   * and amount may be null, the time column may not.
   */
  datatype Transaction = Transaction(
    id: Id,
    categoryId: Id,
    description: Option<string>,
    amount: Option<Cents>,
    time: Instant)

  /** The body of a create or update request for a category. */
  datatype CategoryRequest = CategoryRequest(name: string, kind: CategoryType)

  /** The body of a create or update request for a transaction; every field may be null. */
  datatype TransactionRequest = TransactionRequest(
    description: Option<string>,
    amount: Option<Cents>,
    categoryId: Option<Id>,
    time: Option<Instant>)

  /** One row of the expense summary: an EXPENSE category and the total of its transactions. */
  datatype CategoryExpenseSummary = CategoryExpenseSummary(
    categoryId: Id,
    categoryName: string,
    totalExpenses: Cents)

  /**
   * The ways a service call fails: a missing row, a name that is already
   * taken, a refused deletion, and any other exception (raised by the store
   * or the runtime) that the services do not classify.
   */
  datatype Error = NotFound | Duplicate | BusinessLogic | Unclassified

  datatype Result<+T> = Ok(value: T) | Err(error: Error)
}
