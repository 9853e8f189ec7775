/**
 * The request handlers of main.py over an in-memory store. Each handler is one method that
 * changes the two tables step by step, as the handler does through its session. Seeding
 * (InitDb) states its result in its own contract; every other mutating method is proved to
 * leave exactly the tables the matching function of module Handlers describes.
 * Primary keys stay unique (Valid); referential integrity is not assumed.
 */
module Store {
  import opened Wrappers
  import opened Models
  import opened Tables
  import Handlers

  /** One line of the category list: a category and its total. */
  datatype CategoryTotal = CategoryTotal(category: Category, total: int)

  /** What the category page shows: the category if found, its transactions, and every category. */
  datatype CategoryPage = CategoryPage(
    category: Option<Category>,
    transactions: seq<Transaction>,
    categories: seq<Category>)

  class Ledger {
    var categories: seq<Category>
    var transactions: seq<Transaction>

    function Snapshot(): Db
      reads this
    {
      Db(categories, transactions)
    }

    ghost predicate Valid()
      reads this
    {
      KeysUnique(Snapshot())
    }

    /** A freshly created, empty store. */
    constructor ()
      ensures Valid()
      ensures categories == [] && transactions == []
    {
      categories := [];
      transactions := [];
    }

    /** init_db: seed the default categories, in order, into a store that has none; otherwise do nothing. */
    method InitDb()
      requires Valid()
      modifies this
      ensures Valid()
      ensures transactions == old(transactions)
      ensures old(categories) != [] ==> categories == old(categories)
      ensures old(categories) == [] ==>
        && |categories| == |DefaultCategories|
        && forall k :: 0 <= k < |categories| ==> categories[k].name == DefaultCategories[k]
      ensures categories != []
      ensures old(ReferencesValid(Snapshot())) ==> ReferencesValid(Snapshot())
    {
      if |categories| == 0 {
        for i := 0 to |DefaultCategories|
          invariant |categories| == i
          invariant forall k :: 0 <= k < i ==> categories[k].name == DefaultCategories[k]
          invariant UniqueCategoryIds(categories)
          invariant transactions == old(transactions)
        {
          var id := NextCategoryId(categories);
          categories := categories + [Category(id, DefaultCategories[i])];
        }
        assert categories[0] in categories;
      }
    }

    /** read_root: every category in table order with the sum of the amounts of its transactions. */
    method ReadRoot() returns (view: seq<CategoryTotal>)
      ensures |view| == |categories|
      ensures forall i :: 0 <= i < |view| ==>
        && view[i].category == categories[i]
        && view[i].total == Total(transactions, categories[i].id)
    {
      view := [];
      for i := 0 to |categories|
        invariant |view| == i
        invariant forall k :: 0 <= k < i ==>
          && view[k].category == categories[k]
          && view[k].total == Total(transactions, categories[k].id)
      {
        var category := categories[i];
        var rows := TransactionsOf(transactions, category.id);
        var sum := 0;
        for j := 0 to |rows|
          invariant sum == SumAmounts(rows[..j])
        {
          assert rows[..j + 1][..j] == rows[..j];
          sum := sum + rows[j].amount;
        }
        assert rows[..|rows|] == rows;
        TotalIsSumOfFiltered(transactions, category.id);
        view := view + [CategoryTotal(category, sum)];
      }
    }

    /** read_category: the first category with that id if any, exactly its transactions, and the full list. */
    function ReadCategory(categoryId: int): (page: CategoryPage)
      reads this
      ensures page.category.Some? <==> categoryId in CategoryIds(categories)
      ensures page.category.Some? ==> page.category.value in categories && page.category.value.id == categoryId
      ensures page.category.Some? ==>
        exists k :: 0 <= k < |categories| && categories[k] == page.category.value
                 && forall j :: 0 <= j < k ==> categories[j].id != categoryId
      ensures forall t :: t in page.transactions <==> t in transactions && t.categoryId == Some(categoryId)
      ensures forall t :: multiset(page.transactions)[t]
                       == if t.categoryId == Some(categoryId) then multiset(transactions)[t] else 0
      ensures page.categories == categories
    {
      TransactionsOfCounts(transactions, categoryId);
      var found := CategoryIndex(categories, categoryId);
      CategoryPage(
        if found.Some? then Some(categories[found.value]) else None,
        TransactionsOf(transactions, categoryId),
        categories)
    }

    /** add_transaction_post: store one new row under a fresh id; the category is not checked. */
    method AddTransaction(categoryId: int, amount: int, date: Date, description: Option<string>)
      returns (newId: int)
      requires Valid()
      modifies this
      ensures Valid()
      ensures newId !in TransactionIds(old(transactions))
      ensures Snapshot() == Handlers.AddTransaction(old(Snapshot()), newId, categoryId, amount, date, description)
    {
      newId := NextTransactionId(transactions);
      Handlers.AddTransactionEffect(Snapshot(), newId, categoryId, amount, date, description, categoryId);
      transactions := transactions + [Transaction(newId, Some(categoryId), amount, date, description)];
    }

    /** delete_transaction: remove the row with that id; an unknown id changes nothing. */
    method DeleteTransaction(transactionId: int)
      requires Valid()
      modifies this
      ensures Valid()
      ensures Snapshot() == Handlers.DeleteTransaction(old(Snapshot()), transactionId)
      ensures old(ReferencesValid(Snapshot())) ==> ReferencesValid(Snapshot())
    {
      Handlers.DeleteTransactionEffect(Snapshot(), transactionId);
      var found := TransactionIndex(transactions, transactionId);
      if found.Some? {
        var k := found.value;
        transactions := transactions[..k] + transactions[k + 1..];
      }
    }

    /** add_category_post: store one new category under a fresh id; duplicate names are accepted. */
    method AddCategory(name: string) returns (newId: int)
      requires Valid()
      modifies this
      ensures Valid()
      ensures newId !in CategoryIds(old(categories))
      ensures Snapshot() == Handlers.AddCategory(old(Snapshot()), newId, name)
      ensures old(ReferencesValid(Snapshot())) ==> ReferencesValid(Snapshot())
    {
      newId := NextCategoryId(categories);
      Handlers.AddCategoryEffect(Snapshot(), newId, name);
      categories := categories + [Category(newId, name)];
    }

    /** Step 1 of delete_category_post: find the first "Other", or create one under a fresh id. */
    method GetOrCreateOther() returns (otherId: int)
      requires Valid()
      modifies this
      ensures Valid()
      ensures FirstNamed(old(categories), OtherName).Some? ==>
        otherId == old(categories)[FirstNamed(old(categories), OtherName).value].id
      ensures FirstNamed(old(categories), OtherName).None? ==> otherId !in CategoryIds(old(categories))
      ensures categories == Handlers.WithOther(old(categories), otherId)
      ensures transactions == old(transactions)
    {
      var other := FirstNamed(categories, OtherName);
      if other.Some? {
        otherId := categories[other.value].id;
      } else {
        otherId := NextCategoryId(categories);
        Handlers.WithOtherRows(categories, otherId);
        categories := categories + [Category(otherId, OtherName)];
      }
    }

    /**
     * Every transaction of `from` now has category `to`, and nothing else changes: step 2 of
     * delete_category_post (`to` is "Other"), and the store's NULLing of references when it
     * deletes a category row (`to` is None).
     */
    method MoveTransactions(from: int, to: Option<int>)
      requires Valid()
      modifies this
      ensures Valid()
      ensures categories == old(categories)
      ensures transactions == Handlers.Retarget(old(transactions), from, to)
    {
      for i := 0 to |transactions|
        invariant categories == old(categories)
        invariant |transactions| == |old(transactions)|
        invariant forall k :: 0 <= k < i ==> transactions[k] == Handlers.Repoint(old(transactions)[k], from, to)
        invariant forall k :: i <= k < |transactions| ==> transactions[k] == old(transactions)[k]
      {
        if transactions[i].categoryId == Some(from) {
          transactions := transactions[i := transactions[i].(categoryId := to)];
        }
      }
      assert forall k :: 0 <= k < |transactions| ==> transactions[k].id == old(transactions)[k].id;
    }

    /**
     * Step 3 of delete_category_post: delete the category with that id if there is one; the
     * store sets `category_id` to NULL on the transactions that still reference it.
     */
    method RemoveCategory(categoryId: int)
      requires Valid()
      modifies this
      ensures Valid()
      ensures Snapshot() == Handlers.DeleteCategoryRow(old(Snapshot()), categoryId)
      ensures forall c :: c in categories <==> c in old(categories) && c.id != categoryId
      ensures categoryId in CategoryIds(old(categories)) ==>
        forall t :: t in transactions ==> t.categoryId != Some(categoryId)
    {
      Handlers.DeleteCategoryRowEffect(Snapshot(), categoryId);
      var found := CategoryIndex(categories, categoryId);
      if found.Some? {
        var k := found.value;
        MoveTransactions(categoryId, None);
        categories := categories[..k] + categories[k + 1..];
        forall t | t in transactions
          ensures t.categoryId != Some(categoryId)
        {
          var j :| 0 <= j < |transactions| && transactions[j] == t;
        }
      }
    }

    /**
     * delete_category_post: get or create "Other", move the transactions of `categoryId`
     * onto it, then delete the category if it exists. Returns the id of "Other".
     */
    method DeleteCategory(categoryId: int) returns (otherId: int)
      requires Valid()
      modifies this
      ensures Valid()
      ensures FirstNamed(old(categories), OtherName).Some? ==>
        otherId == old(categories)[FirstNamed(old(categories), OtherName).value].id
      ensures FirstNamed(old(categories), OtherName).None? ==> otherId !in CategoryIds(old(categories))
      ensures Snapshot() == Handlers.DeleteCategory(old(Snapshot()), categoryId, otherId)
      ensures old(ReferencesValid(Snapshot())) && categoryId != otherId ==> ReferencesValid(Snapshot())
    {
      ghost var before := Snapshot();
      otherId := GetOrCreateOther();
      MoveTransactions(categoryId, Some(otherId));
      RemoveCategory(categoryId);
      assert Handlers.OtherId(before.categories, otherId) == otherId;
      if ReferencesValid(before) {
        Handlers.DeleteCategoryIntegrity(before, categoryId, otherId);
      }
    }

    /** change_category_post: point the transaction with that id at another category; the target is not checked. */
    method ChangeCategory(transactionId: int, newCategoryId: int)
      requires Valid()
      modifies this
      ensures Valid()
      ensures Snapshot() == Handlers.ChangeCategory(old(Snapshot()), transactionId, newCategoryId)
      ensures old(ReferencesValid(Snapshot())) && newCategoryId in CategoryIds(categories) ==> ReferencesValid(Snapshot())
    {
      Handlers.ChangeCategoryEffect(Snapshot(), transactionId, newCategoryId);
      if ReferencesValid(Snapshot()) {
        Handlers.ChangeCategoryIntegrity(Snapshot(), transactionId, newCategoryId);
      }
      var found := TransactionIndex(transactions, transactionId);
      if found.Some? {
        var k := found.value;
        transactions := transactions[k := transactions[k].(categoryId := Some(newCategoryId))];
      }
    }
  }

  /**
   * A client of the contracts alone: seed twice (the second time changes nothing), record
   * 12.50 under Food, then delete Food. The transaction moves to the seeded "Other", which
   * now totals 12.50, and Food is no longer listed.
   */
  method SeedAddDeleteScenario()
  {
    var ledger := new Ledger();
    ledger.InitDb();
    var seeded := ledger.categories;
    ledger.InitDb();
    assert ledger.categories == seeded;

    var food, other := seeded[0], seeded[4];
    assert food.name == "Food" && other.name == OtherName;
    var txId := ledger.AddTransaction(food.id, 1250, Date(2024, 1, 1), None);
    var row := Transaction(txId, Some(food.id), 1250, Date(2024, 1, 1), None);
    assert ledger.transactions == [row] && ledger.categories == seeded;
    assert Total([row], food.id) == 1250 && Total([row], other.id) == 0 by {
      assert [row][..0] == [];
    }
    var view := ledger.ReadRoot();
    assert view[0].total == 1250;
    assert view[4].total == 0;

    assert FirstNamed(seeded, OtherName) == Some(4);
    var otherId := ledger.DeleteCategory(food.id);
    assert otherId == other.id;
    assert ledger.transactions == [Transaction(txId, Some(other.id), 1250, Date(2024, 1, 1), None)];
    assert forall c :: c in ledger.categories ==> c.id != food.id;
    assert other in ledger.categories;
    view := ledger.ReadRoot();
    assert view[3].category == other && view[3].total == 1250;
  }
}
