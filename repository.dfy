/**
 * The two tables behind `CategoryRepository` and `TransactionRepository`.
 * Each is a map from identifier to row plus the next identity value; the
 * derived queries (`findByName`, `findByType`, `findByCategory`,
 * `existsByCategoryId`, `findAllByOrderByTimeDesc`) are functions over the
 * rows. Rows are read in identifier order, which the model takes as the
 * store's own order where the queries leave it unspecified.
 */
module Repository {
  import opened Entities
  import opened Sorting

  // ---------------------------------------------------------------------
  // Reading a table in identifier order

  predicate IsLeast(m: Id, s: set<Id>) {
    m in s && forall k :: k in s ==> m <= k
  }

  lemma {:induction false} MinimumExists(s: set<Id>)
    requires s != {}
    ensures exists m :: IsLeast(m, s)
    decreases |s|
  {
    assert (forall y :: y !in s) ==> s == {};
    var x :| x in s;
    if s == {x} {
      assert IsLeast(x, s);
    } else {
      var rest := s - {x};
      MinimumExists(rest);
      var m :| IsLeast(m, rest);
      var least := if x < m then x else m;
      forall k | k in s ensures least <= k {
        if k != x {
          assert k in rest;
        }
      }
      assert IsLeast(least, s);
    }
  }

  /** The smallest identifier of a non-empty set. */
  function Minimum(s: set<Id>): (m: Id)
    requires s != {}
    ensures IsLeast(m, s)
  {
    MinimumExists(s);
    var m :| IsLeast(m, s);
    m
  }

  /** The identifiers of `s` in increasing order. */
  function SortedIds(s: set<Id>): (r: seq<Id>)
    ensures |r| == |s|
    ensures forall k :: k in r <==> k in s
    ensures forall i, j :: 0 <= i < j < |r| ==> r[i] < r[j]
    decreases |s|
  {
    if s == {} then
      []
    else
      var m := Minimum(s);
      var rest := SortedIds(s - {m});
      assert forall i :: 0 <= i < |rest| ==> rest[i] in s - {m};
      [m] + rest
  }

  /** `findAll`: every row of the table, in identifier order. */
  function FindAll<T(==, !new)>(rows: map<Id, T>): (r: seq<T>)
    ensures |r| == |rows|
    ensures forall x :: x in r <==> x in rows.Values
  {
    var ids := SortedIds(rows.Keys);
    var r := seq(|ids|, i requires 0 <= i < |ids| => rows[ids[i]]);
    assert forall x :: x in rows.Values ==> x in r by {
      forall x | x in rows.Values ensures x in r {
        var k :| k in rows && rows[k] == x;
        var i :| 0 <= i < |ids| && ids[i] == k;
        assert r[i] == x;
      }
    }
    r
  }

  /**
   * `findById(id)` followed by `orElseThrow` with a `ResourceNotFoundException`,
   * as both services' lookups by identifier do: the stored row, or NotFound.
   */
  function GetById<T>(rows: map<Id, T>, id: Id): (r: Result<T>)
    ensures r.Ok? <==> id in rows
    ensures r.Ok? ==> r.value == rows[id]
    ensures r.Err? ==> r.error == NotFound
  {
    if id in rows then Ok(rows[id]) else Err(NotFound)
  }

  /** Every row is stored under its own identifier. */
  ghost predicate CategoriesKeyed(rows: map<Id, Category>) {
    forall k :: k in rows ==> rows[k].id == k
  }

  ghost predicate TransactionsKeyed(rows: map<Id, Transaction>) {
    forall k :: k in rows ==> rows[k].id == k
  }

  /** A stored value is held under some key. */
  lemma ValueIsStored<T(!new)>(rows: map<Id, T>, x: T)
    requires x in rows.Values
    ensures exists k :: k in rows && rows[k] == x
  {
    var all := FindAll(rows);
    assert x in all;
    var i :| 0 <= i < |all| && all[i] == x;
    var ids := SortedIds(rows.Keys);
    assert all[i] == rows[ids[i]];
  }

  /** In a keyed table a stored category is found under its own identifier. */
  lemma StoredUnderOwnId(rows: map<Id, Category>, c: Category)
    requires CategoriesKeyed(rows) && c in rows.Values
    ensures c.id in rows && rows[c.id] == c
  {
    ValueIsStored(rows, c);
    var k :| k in rows && rows[k] == c;
  }

  function CategoryKey(c: Category): int { c.id }

  function TransactionKey(t: Transaction): int { t.id }

  lemma FindAllCategoriesAscending(rows: map<Id, Category>)
    requires CategoriesKeyed(rows)
    ensures StrictlyAscending(FindAll(rows), CategoryKey)
  {
    var ids := SortedIds(rows.Keys);
    assert forall i :: 0 <= i < |ids| ==> FindAll(rows)[i].id == ids[i];
  }

  lemma FindAllTransactionsAscending(rows: map<Id, Transaction>)
    requires TransactionsKeyed(rows)
    ensures StrictlyAscending(FindAll(rows), TransactionKey)
  {
    var ids := SortedIds(rows.Keys);
    assert forall i :: 0 <= i < |ids| ==> FindAll(rows)[i].id == ids[i];
  }

  // ---------------------------------------------------------------------
  // Category queries

  /** Some stored category carries `name`. */
  ghost predicate NameTaken(rows: map<Id, Category>, name: string) {
    exists k :: k in rows && rows[k].name == name
  }

  function FirstNamed(cs: seq<Category>, name: string): (r: Option<Category>)
    ensures r.Some? <==> exists c :: c in cs && c.name == name
    ensures r.Some? ==> r.value in cs && r.value.name == name
  {
    if cs == [] then None
    else if cs[0].name == name then Some(cs[0])
    else
      var r := FirstNamed(cs[1..], name);
      assert forall c :: c in cs ==> c == cs[0] || c in cs[1..];
      r
  }

  /** `findByName`: the category holding `name`, if there is one. */
  function FindByName(rows: map<Id, Category>, name: string): (r: Option<Category>)
    ensures r.Some? <==> NameTaken(rows, name)
    ensures r.Some? ==> r.value in rows.Values && r.value.name == name
  {
    var all := FindAll(rows);
    var r := FirstNamed(all, name);
    assert NameTaken(rows, name) ==> exists c :: c in all && c.name == name by {
      if NameTaken(rows, name) {
        var k :| k in rows && rows[k].name == name;
        assert rows[k] in rows.Values;
      }
    }
    r
  }

  function OfType(cs: seq<Category>, kind: CategoryType): (r: seq<Category>)
    ensures forall c :: c in r <==> c in cs && c.kind == kind
    ensures StrictlyAscending(cs, CategoryKey) ==> StrictlyAscending(r, CategoryKey)
  {
    if cs == [] then []
    else
      var rest := OfType(cs[1..], kind);
      assert forall c :: c in cs ==> c == cs[0] || c in cs[1..];
      assert StrictlyAscending(cs, CategoryKey) ==> forall c :: c in rest ==> cs[0].id < c.id by {
        if StrictlyAscending(cs, CategoryKey) {
          forall c | c in rest ensures cs[0].id < c.id {
            var k :| 0 <= k < |cs[1..]| && cs[1..][k] == c;
            assert cs[k + 1] == c;
          }
        }
      }
      if cs[0].kind == kind then [cs[0]] + rest else rest
  }

  /** `findByType`: the categories of one type, in identifier order. */
  function FindByType(rows: map<Id, Category>, kind: CategoryType): (r: seq<Category>)
    ensures forall c :: c in r <==> c in rows.Values && c.kind == kind
    ensures CategoriesKeyed(rows) ==> StrictlyAscending(r, CategoryKey)
  {
    assert CategoriesKeyed(rows) ==> StrictlyAscending(FindAll(rows), CategoryKey) by {
      if CategoriesKeyed(rows) { FindAllCategoriesAscending(rows); }
    }
    OfType(FindAll(rows), kind)
  }

  // ---------------------------------------------------------------------
  // Transaction queries

  function OfCategory(ts: seq<Transaction>, categoryId: Id): (r: seq<Transaction>)
    ensures forall t :: t in r <==> t in ts && t.categoryId == categoryId
    ensures StrictlyAscending(ts, TransactionKey) ==> StrictlyAscending(r, TransactionKey)
  {
    if ts == [] then []
    else
      var rest := OfCategory(ts[1..], categoryId);
      assert forall t :: t in ts ==> t == ts[0] || t in ts[1..];
      assert StrictlyAscending(ts, TransactionKey) ==> forall t :: t in rest ==> ts[0].id < t.id by {
        if StrictlyAscending(ts, TransactionKey) {
          forall t | t in rest ensures ts[0].id < t.id {
            var k :| 0 <= k < |ts[1..]| && ts[1..][k] == t;
            assert ts[k + 1] == t;
          }
        }
      }
      if ts[0].categoryId == categoryId then [ts[0]] + rest else rest
  }

  /** `findByCategory` / `findByCategoryId`: the transactions of one category, in identifier order. */
  function FindByCategory(rows: map<Id, Transaction>, categoryId: Id): (r: seq<Transaction>)
    ensures forall t :: t in r <==> t in rows.Values && t.categoryId == categoryId
    ensures TransactionsKeyed(rows) ==> StrictlyAscending(r, TransactionKey)
  {
    assert TransactionsKeyed(rows) ==> StrictlyAscending(FindAll(rows), TransactionKey) by {
      if TransactionsKeyed(rows) { FindAllTransactionsAscending(rows); }
    }
    OfCategory(FindAll(rows), categoryId)
  }

  /** Some stored transaction references `categoryId`. */
  ghost predicate Referenced(rows: map<Id, Transaction>, categoryId: Id) {
    exists k :: k in rows && rows[k].categoryId == categoryId
  }

  /** `existsByCategoryId`. */
  function ExistsByCategoryId(rows: map<Id, Transaction>, categoryId: Id): (b: bool)
    ensures b <==> Referenced(rows, categoryId)
  {
    var r := FindByCategory(rows, categoryId);
    assert Referenced(rows, categoryId) ==> r != [] by {
      if Referenced(rows, categoryId) {
        var k :| k in rows && rows[k].categoryId == categoryId;
        assert rows[k] in rows.Values;
        assert rows[k] in r;
      }
    }
    assert r != [] ==> Referenced(rows, categoryId) by {
      if r != [] {
        assert r[0] in r;
        var k :| k in rows && rows[k] == r[0];
      }
    }
    r != []
  }

  function TimeOf(t: Transaction): int { t.time }

  /** `findAllByOrderByTimeDesc`: every transaction, most recent first. */
  function FindAllByOrderByTimeDesc(rows: map<Id, Transaction>): (r: seq<Transaction>)
    ensures |r| == |rows|
    ensures forall t :: t in r <==> t in rows.Values
    ensures SortedDesc(r, TimeOf)
  {
    var all := FindAll(rows);
    var r := SortDesc(all, TimeOf);
    assert |r| == |multiset(r)| == |multiset(all)| == |all|;
    ElementsOfPermutation(r, all);
    r
  }

  // ---------------------------------------------------------------------
  // The tables and the invariants the services keep over both of them

  class CategoryRepository {
    var rows: map<Id, Category>
    var nextId: Id

    /** Identity values are positive and handed out in increasing order. */
    ghost predicate Valid()
      reads this
    {
      0 < nextId && forall k :: k in rows ==> 0 < k < nextId && rows[k].id == k
    }

    constructor ()
      ensures Valid() && rows == map[]
    {
      rows := map[];
      nextId := 1;
    }

    /** `save` of a new category: the identity column assigns the next identifier. */
    method Insert(name: string, kind: CategoryType) returns (c: Category)
      requires Valid()
      modifies this
      ensures Valid()
      ensures c == Category(old(nextId), name, kind) && c.id !in old(rows)
      ensures rows == old(rows)[c.id := c] && nextId == old(nextId) + 1
    {
      c := Category(nextId, name, kind);
      rows := rows[c.id := c];
      nextId := nextId + 1;
    }

    /** `save` of a category that is already stored: its row is overwritten. */
    method Update(c: Category)
      requires Valid() && c.id in rows
      modifies this
      ensures Valid()
      ensures rows == old(rows)[c.id := c] && nextId == old(nextId)
    {
      rows := rows[c.id := c];
    }

    /** `deleteById`. */
    method DeleteById(id: Id)
      requires Valid()
      modifies this
      ensures Valid()
      ensures rows == old(rows) - {id} && nextId == old(nextId)
    {
      rows := rows - {id};
    }
  }

  class TransactionRepository {
    var rows: map<Id, Transaction>
    var nextId: Id

    ghost predicate Valid()
      reads this
    {
      0 < nextId && forall k :: k in rows ==> 0 < k < nextId && rows[k].id == k
    }

    constructor ()
      ensures Valid() && rows == map[]
    {
      rows := map[];
      nextId := 1;
    }

    /** `save` of a new transaction: the identity column assigns the next identifier. */
    method Insert(categoryId: Id, description: Option<string>, amount: Option<Cents>, time: Instant)
      returns (t: Transaction)
      requires Valid()
      modifies this
      ensures Valid()
      ensures t == Transaction(old(nextId), categoryId, description, amount, time) && t.id !in old(rows)
      ensures rows == old(rows)[t.id := t] && nextId == old(nextId) + 1
    {
      t := Transaction(nextId, categoryId, description, amount, time);
      rows := rows[t.id := t];
      nextId := nextId + 1;
    }

    /** `save` of a transaction that is already stored: its row is overwritten. */
    method Update(t: Transaction)
      requires Valid() && t.id in rows
      modifies this
      ensures Valid()
      ensures rows == old(rows)[t.id := t] && nextId == old(nextId)
    {
      rows := rows[t.id := t];
    }

    /** `deleteById`. */
    method DeleteById(id: Id)
      requires Valid()
      modifies this
      ensures Valid()
      ensures rows == old(rows) - {id} && nextId == old(nextId)
    {
      rows := rows - {id};
    }
  }

  /** No two categories share a name. */
  ghost predicate NamesUnique(rows: map<Id, Category>) {
    forall a, b :: a in rows && b in rows && rows[a].name == rows[b].name ==> a == b
  }

  /** Every transaction's category reference resolves to a stored category. */
  ghost predicate ReferencesResolve(transactions: map<Id, Transaction>, categories: map<Id, Category>) {
    forall k :: k in transactions ==> transactions[k].categoryId in categories
  }

  /** The state both services keep: well-formed tables, unique names, no dangling reference. */
  ghost predicate Consistent(categories: CategoryRepository, transactions: TransactionRepository)
    reads categories, transactions
  {
    && categories.Valid()
    && transactions.Valid()
    && NamesUnique(categories.rows)
    && ReferencesResolve(transactions.rows, categories.rows)
  }

  /** Storing `c` under `id` keeps names unique when no other category holds its name. */
  lemma PutKeepsNamesUnique(rows: map<Id, Category>, id: Id, c: Category)
    requires NamesUnique(rows)
    requires forall k :: k in rows && k != id ==> rows[k].name != c.name
    ensures NamesUnique(rows[id := c])
  {
    var after := rows[id := c];
    forall a, b | a in after && b in after && after[a].name == after[b].name ensures a == b {
      if a != id && b != id {
        assert rows[a].name == rows[b].name;
      }
    }
  }
}
