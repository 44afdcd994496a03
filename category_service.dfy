/**
 * `CategoryServiceImpl`: creating, listing, reading, renaming and deleting
 * categories. Every call runs as one store transaction: a call that fails
 * leaves both tables as they were.
 */
module CategoryService {
  import opened Entities
  import opened Sorting
  import opened Repository

  /**
   * `getAllCategories`: every stored category exactly once, in the store's
   * own order (by identifier).
   */
  function GetAllCategories(rows: map<Id, Category>): (r: seq<Category>)
    requires CategoriesKeyed(rows)
    ensures |r| == |rows|
    ensures forall c :: c in r <==> c in rows.Values
    ensures StrictlyAscending(r, CategoryKey)
  {
    FindAllCategoriesAscending(rows);
    FindAll(rows)
  }

  class CategoryServiceImpl {
    const categoryRepository: CategoryRepository
    const transactionRepository: TransactionRepository

    ghost predicate Valid()
      reads categoryRepository, transactionRepository
    {
      Consistent(categoryRepository, transactionRepository)
    }

    constructor (categories: CategoryRepository, transactions: TransactionRepository)
      requires Consistent(categories, transactions)
      ensures categoryRepository == categories && transactionRepository == transactions
      ensures Valid()
    {
      categoryRepository := categories;
      transactionRepository := transactions;
    }

    /**
     * `createCategory`: refused with Duplicate when the name is taken;
     * otherwise exactly one category, with a fresh identifier, is added.
     */
    method CreateCategory(request: CategoryRequest) returns (r: Result<Category>)
      requires Valid()
      modifies categoryRepository
      ensures Valid()
      ensures r.Err? <==> NameTaken(old(categoryRepository.rows), request.name)
      ensures r.Err? ==> r.error == Duplicate && unchanged(categoryRepository)
      ensures r.Ok? ==> r.value.name == request.name && r.value.kind == request.kind
      ensures r.Ok? ==> r.value.id == old(categoryRepository.nextId) && r.value.id !in old(categoryRepository.rows)
      ensures r.Ok? ==> categoryRepository.nextId == old(categoryRepository.nextId) + 1
      ensures r.Ok? ==> categoryRepository.rows == old(categoryRepository.rows)[r.value.id := r.value]
      ensures r.Ok? ==> GetById(categoryRepository.rows, r.value.id) == Ok(r.value)
      ensures unchanged(transactionRepository)
    {
      var existing := FindByName(categoryRepository.rows, request.name);
      if existing.Some? {
        return Err(Duplicate);
      }
      ghost var before := categoryRepository.rows;
      var saved := categoryRepository.Insert(request.name, request.kind);
      PutKeepsNamesUnique(before, saved.id, saved);
      r := Ok(saved);
    }

    /**
     * `updateCategory`: NotFound for an absent identifier; Duplicate when the
     * name changes to one another category holds; otherwise the name and
     * type of the target are replaced. Keeping the current name skips the
     * uniqueness check.
     */
    method UpdateCategory(id: Id, request: CategoryRequest) returns (r: Result<Category>)
      requires Valid()
      modifies categoryRepository
      ensures Valid()
      ensures id !in old(categoryRepository.rows) ==> r == Err(NotFound)
      ensures (id in old(categoryRepository.rows) && old(categoryRepository.rows)[id].name != request.name
               && NameTaken(old(categoryRepository.rows), request.name)) ==> r == Err(Duplicate)
      ensures r.Ok? <==> id in old(categoryRepository.rows)
                         && (old(categoryRepository.rows)[id].name == request.name
                             || !NameTaken(old(categoryRepository.rows), request.name))
      ensures r.Err? ==> unchanged(categoryRepository)
      ensures r.Ok? ==> r.value == Category(id, request.name, request.kind)
      ensures r.Ok? ==> categoryRepository.rows == old(categoryRepository.rows)[id := r.value]
      ensures categoryRepository.nextId == old(categoryRepository.nextId)
      ensures unchanged(transactionRepository)
    {
      if id !in categoryRepository.rows {
        return Err(NotFound);
      }
      var existing := categoryRepository.rows[id];
      if existing.name != request.name {
        var duplicate := FindByName(categoryRepository.rows, request.name);
        if duplicate.Some? {
          return Err(Duplicate);
        }
      }
      var updated := existing.(name := request.name, kind := request.kind);
      assert forall k :: k in categoryRepository.rows && k != id ==> categoryRepository.rows[k].name != request.name;
      PutKeepsNamesUnique(categoryRepository.rows, id, updated);
      categoryRepository.Update(updated);
      r := Ok(updated);
    }

    /**
     * `deleteCategory`: NotFound for an absent identifier, BusinessLogic
     * while a transaction references the category; otherwise exactly that
     * category is removed.
     */
    method DeleteCategory(id: Id) returns (r: Result<()>)
      requires Valid()
      modifies categoryRepository
      ensures Valid()
      ensures id !in old(categoryRepository.rows) ==> r == Err(NotFound)
      ensures id in old(categoryRepository.rows) && Referenced(transactionRepository.rows, id) ==> r == Err(BusinessLogic)
      ensures r.Ok? <==> id in old(categoryRepository.rows) && !Referenced(transactionRepository.rows, id)
      ensures r.Err? ==> unchanged(categoryRepository)
      ensures r.Ok? ==> categoryRepository.rows == old(categoryRepository.rows) - {id}
      ensures categoryRepository.nextId == old(categoryRepository.nextId)
      ensures r.Ok? ==> GetById(categoryRepository.rows, id) == Err(NotFound)
      ensures unchanged(transactionRepository)
    {
      if id !in categoryRepository.rows {
        return Err(NotFound);
      }
      if ExistsByCategoryId(transactionRepository.rows, id) {
        return Err(BusinessLogic);
      }
      categoryRepository.DeleteById(id);
      r := Ok(());
    }
  }
}
