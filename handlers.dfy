/**
 * What each mutating request handler of main.py does to the two tables, as a function
 * from the tables before to the tables after, and what is proved about it. The class
 * in store.dfy performs the same changes step by step and is proved to agree with these.
 *
 * Ids the store allocates are parameters here; the lemmas only ask that they be fresh.
 */
module Handlers {
  import opened Wrappers
  import opened Models
  import opened Tables

  // ---------------------------------------------------------------------------
  // Reference definitions
  // ---------------------------------------------------------------------------

  /** add_transaction_post: append one row; the category is not looked up. */
  function AddTransaction(db: Db, newId: int, categoryId: int, amount: int, date: Date,
                          description: Option<string>): Db
  {
    db.(transactions := db.transactions + [Transaction(newId, Some(categoryId), amount, date, description)])
  }

  function RemoveAt<T>(s: seq<T>, i: nat): seq<T>
    requires i < |s|
  {
    s[..i] + s[i + 1..]
  }

  /** delete_transaction: remove the first row with that id, if there is one. */
  function DeleteTransaction(db: Db, txId: int): Db {
    match TransactionIndex(db.transactions, txId)
    case Some(k) => db.(transactions := RemoveAt(db.transactions, k))
    case None => db
  }

  /** add_category_post: append one category; names may repeat. */
  function AddCategory(db: Db, newId: int, name: string): Db {
    db.(categories := db.categories + [Category(newId, name)])
  }

  /** change_category_post: overwrite the category of the first row with that id; the target is not looked up. */
  function ChangeCategory(db: Db, txId: int, newCategoryId: int): Db {
    match TransactionIndex(db.transactions, txId)
    case Some(k) => db.(transactions := db.transactions[k := db.transactions[k].(categoryId := Some(newCategoryId))])
    case None => db
  }

  /** The id of the "Other" row delete_category_post moves transactions to: the first so named, else the new one. */
  function OtherId(cats: seq<Category>, freshId: int): int {
    match FirstNamed(cats, OtherName)
    case Some(k) => cats[k].id
    case None => freshId
  }

  /** The categories after the get-or-create step of delete_category_post. */
  function WithOther(cats: seq<Category>, freshId: int): seq<Category> {
    if FirstNamed(cats, OtherName).Some? then cats else cats + [Category(freshId, OtherName)]
  }

  /** One row: a transaction of category `from` now has category `to`, an id or NULL. */
  function Repoint(t: Transaction, from: int, to: Option<int>): Transaction {
    if t.categoryId == Some(from) then t.(categoryId := to) else t
  }

  /**
   * Every transaction of category `from` now has category `to`: the moving loop of
   * delete_category_post (to "Other"), and the store's own update when it deletes a
   * category that rows still reference (to NULL).
   */
  function Retarget(txs: seq<Transaction>, from: int, to: Option<int>): seq<Transaction> {
    seq(|txs|, i requires 0 <= i < |txs| => Repoint(txs[i], from, to))
  }

  /**
   * `db.delete(category)` for the first category with that id, if any. The relationship
   * between the tables has no delete cascade, so the store sets the `category_id` of the
   * rows that still reference the category to NULL.
   */
  function DeleteCategoryRow(db: Db, id: int): Db {
    match CategoryIndex(db.categories, id)
    case Some(k) => Db(RemoveAt(db.categories, k), Retarget(db.transactions, id, None))
    case None => db
  }

  /**
   * delete_category_post: get or create "Other", move the transactions of `id` onto it,
   * then delete the category `id` if it (still) exists.
   */
  function DeleteCategory(db: Db, id: int, freshId: int): Db {
    var cats := WithOther(db.categories, freshId);
    var moved := Retarget(db.transactions, id, Some(OtherId(db.categories, freshId)));
    DeleteCategoryRow(Db(cats, moved), id)
  }

  /** The id handed to delete_category_post's create step is fresh whenever that step runs. */
  ghost predicate FreshForOther(cats: seq<Category>, freshId: int) {
    (forall c :: c in cats ==> c.name != OtherName) ==> freshId !in CategoryIds(cats)
  }

  // ---------------------------------------------------------------------------
  // Adding and deleting transactions
  // ---------------------------------------------------------------------------

  /** Adding a transaction keeps every row, keeps the keys unique, and adds its amount to its category's total only. */
  lemma AddTransactionEffect(db: Db, newId: int, categoryId: int, amount: int, date: Date,
                             description: Option<string>, x: int)
    requires newId !in TransactionIds(db.transactions)
    ensures var r := AddTransaction(db, newId, categoryId, amount, date, description);
      && r.categories == db.categories
      && |r.transactions| == |db.transactions| + 1
      && (forall t :: t in db.transactions ==> t in r.transactions)
      && Transaction(newId, Some(categoryId), amount, date, description) in r.transactions
      && (KeysUnique(db) ==> KeysUnique(r))
      && Total(r.transactions, x) == Total(db.transactions, x) + (if x == categoryId then amount else 0)
  {
    var r := AddTransaction(db, newId, categoryId, amount, date, description);
    assert r.transactions[..|r.transactions| - 1] == db.transactions;
  }

  /** No existence check: the new row keeps referential integrity exactly when its category exists. */
  lemma AddTransactionIntegrity(db: Db, newId: int, categoryId: int, amount: int, date: Date,
                                description: Option<string>)
    requires ReferencesValid(db)
    ensures ReferencesValid(AddTransaction(db, newId, categoryId, amount, date, description))
        <==> categoryId in CategoryIds(db.categories)
  {
    var r := AddTransaction(db, newId, categoryId, amount, date, description);
    assert r.transactions[|r.transactions| - 1] in r.transactions;
  }

  /** Removing the transaction at a primary key's position removes exactly the rows with that key. */
  lemma RemoveAtTransactionKey(txs: seq<Transaction>, k: nat)
    requires UniqueTransactionIds(txs)
    requires k < |txs|
    ensures var rest := RemoveAt(txs, k);
      && |rest| == |txs| - 1
      && UniqueTransactionIds(rest)
      && forall t :: t in rest <==> t in txs && t.id != txs[k].id
  {
    var rest := RemoveAt(txs, k);
    assert forall j :: 0 <= j < |rest| ==> rest[j] == (if j < k then txs[j] else txs[j + 1]);
    forall t | t in txs && t.id != txs[k].id
      ensures t in rest
    {
      var j :| 0 <= j < |txs| && txs[j] == t;
      assert t == rest[if j < k then j else j - 1];
    }
  }

  /** Deleting a transaction removes exactly the row with that id, or nothing when there is none. */
  lemma DeleteTransactionEffect(db: Db, txId: int)
    requires UniqueTransactionIds(db.transactions)
    ensures var r := DeleteTransaction(db, txId);
      && r.categories == db.categories
      && (forall t :: t in r.transactions <==> t in db.transactions && t.id != txId)
      && |r.transactions| == (if txId in TransactionIds(db.transactions) then |db.transactions| - 1 else |db.transactions|)
      && (txId !in TransactionIds(db.transactions) ==> r == db)
      && (KeysUnique(db) ==> KeysUnique(r))
      && (ReferencesValid(db) ==> ReferencesValid(r))
  {
    match TransactionIndex(db.transactions, txId)
    case None =>
    case Some(k) =>
      RemoveAtTransactionKey(db.transactions, k);
  }

  // ---------------------------------------------------------------------------
  // Adding a category and changing a transaction's category
  // ---------------------------------------------------------------------------

  /** Adding a category keeps every row and allows duplicates: one more category carries the name. */
  lemma AddCategoryEffect(db: Db, newId: int, name: string)
    requires newId !in CategoryIds(db.categories)
    ensures var r := AddCategory(db, newId, name);
      && r.transactions == db.transactions
      && (forall c :: c in db.categories ==> c in r.categories)
      && newId in CategoryIds(r.categories)
      && CountNamed(r.categories, name) == CountNamed(db.categories, name) + 1
      && (KeysUnique(db) ==> KeysUnique(r))
      && (ReferencesValid(db) ==> ReferencesValid(r))
  {
    var r := AddCategory(db, newId, name);
    assert r.categories[..|r.categories| - 1] == db.categories;
    assert r.categories[|r.categories| - 1] in r.categories;
  }

  /** Changing a category rewrites only the `categoryId` of the row with that id, or nothing when there is none. */
  lemma ChangeCategoryEffect(db: Db, txId: int, newCategoryId: int)
    requires UniqueTransactionIds(db.transactions)
    ensures var r := ChangeCategory(db, txId, newCategoryId);
      && r.categories == db.categories
      && |r.transactions| == |db.transactions|
      && (forall i :: 0 <= i < |db.transactions| ==>
            r.transactions[i] == if db.transactions[i].id == txId
                                 then db.transactions[i].(categoryId := Some(newCategoryId))
                                 else db.transactions[i])
      && (txId !in TransactionIds(db.transactions) ==> r == db)
      && (KeysUnique(db) ==> KeysUnique(r))
  {
    var txs := db.transactions;
    match TransactionIndex(txs, txId)
    case None =>
      assert forall i :: 0 <= i < |txs| ==> txs[i] in txs;
    case Some(k) =>
  }

  /** No existence check: the change keeps referential integrity exactly when the row is absent or the target exists. */
  lemma ChangeCategoryIntegrity(db: Db, txId: int, newCategoryId: int)
    requires UniqueTransactionIds(db.transactions)
    requires ReferencesValid(db)
    ensures ReferencesValid(ChangeCategory(db, txId, newCategoryId))
        <==> txId !in TransactionIds(db.transactions) || newCategoryId in CategoryIds(db.categories)
  {
    var txs := db.transactions;
    match TransactionIndex(txs, txId)
    case None =>
    case Some(k) =>
      var r := ChangeCategory(db, txId, newCategoryId);
      assert r.transactions[k] in r.transactions;
      forall t | t in r.transactions
        ensures (t.categoryId.Some? && t.categoryId.value in CategoryIds(db.categories)) || t.categoryId == Some(newCategoryId)
      {
        var j :| 0 <= j < |r.transactions| && r.transactions[j] == t;
        if j != k { assert txs[j] in txs; }
      }
  }

  // ---------------------------------------------------------------------------
  // Deleting a category
  // ---------------------------------------------------------------------------


  /** Moving to the same category changes nothing (deleting "Other" itself moves no transaction). */
  lemma RetargetToSelf(txs: seq<Transaction>, id: int)
    ensures Retarget(txs, id, Some(id)) == txs
  {
  }

  /** When no row references `from`, repointing changes nothing. */
  lemma RetargetUnreferenced(txs: seq<Transaction>, from: int, to: Option<int>)
    requires forall t :: t in txs ==> t.categoryId != Some(from)
    ensures Retarget(txs, from, to) == txs
  {
    assert forall i :: 0 <= i < |txs| ==> txs[i] in txs;
  }

  /**
   * Repointing the transactions of `from` to `to` empties `from`; when `to` is a category it
   * gains those transactions and their total; every other category keeps its own.
   */
  lemma {:induction false} RetargetTotals(txs: seq<Transaction>, from: int, to: Option<int>, x: int)
    requires to != Some(from)
    ensures Total(Retarget(txs, from, to), x)
         == if x == from then 0
            else if to == Some(x) then Total(txs, x) + Total(txs, from)
            else Total(txs, x)
    ensures |TransactionsOf(Retarget(txs, from, to), x)|
         == if x == from then 0
            else if to == Some(x) then |TransactionsOf(txs, x)| + |TransactionsOf(txs, from)|
            else |TransactionsOf(txs, x)|
  {
    if txs != [] {
      var init := txs[..|txs| - 1];
      var moved := Retarget(txs, from, to);
      assert moved[..|moved| - 1] == Retarget(init, from, to);
      RetargetTotals(init, from, to, x);
    }
  }

  /** The get-or-create step keeps every category, adds at most the "Other" row, and keeps keys unique. */
  lemma WithOtherRows(cats: seq<Category>, freshId: int)
    requires UniqueCategoryIds(cats)
    requires FreshForOther(cats, freshId)
    ensures var w, o := WithOther(cats, freshId), OtherId(cats, freshId);
      && UniqueCategoryIds(w)
      && Category(o, OtherName) in w
      && (forall c :: c in cats ==> c in w)
      && (forall c :: c in w ==> c in cats || c == Category(o, OtherName))
  {
    match FirstNamed(cats, OtherName)
    case Some(k) => assert cats[k] in cats;
    case None =>
      var w := WithOther(cats, freshId);
      assert w[|w| - 1] in w;
  }

  /** Whatever id the create step is handed, the "Other" row in use is among the categories afterwards. */
  lemma OtherInWithOther(cats: seq<Category>, freshId: int)
    ensures OtherId(cats, freshId) in CategoryIds(WithOther(cats, freshId))
  {
    var w := WithOther(cats, freshId);
    match FirstNamed(cats, OtherName)
    case Some(k) => assert w[k] in w;
    case None => assert w[|w| - 1] in w;
  }

  /** Removing the row at a primary key's position removes exactly the rows with that key. */
  lemma RemoveAtKey(cats: seq<Category>, k: nat)
    requires UniqueCategoryIds(cats)
    requires k < |cats|
    ensures var rest := RemoveAt(cats, k);
      && UniqueCategoryIds(rest)
      && forall c :: c in rest <==> c in cats && c.id != cats[k].id
  {
    var rest := RemoveAt(cats, k);
    assert forall j :: 0 <= j < |rest| ==> rest[j] == (if j < k then cats[j] else cats[j + 1]);
    forall c | c in cats && c.id != cats[k].id
      ensures c in rest
    {
      var j :| 0 <= j < |cats| && cats[j] == c;
      assert c == rest[if j < k then j else j - 1];
    }
  }

  /**
   * Deleting a category row removes exactly the rows with that id, keeps keys unique, and
   * leaves no transaction referencing the id: those that did are now NULL, the rest unchanged.
   */
  lemma DeleteCategoryRowEffect(db: Db, id: int)
    requires UniqueCategoryIds(db.categories)
    ensures var r := DeleteCategoryRow(db, id);
      && UniqueCategoryIds(r.categories)
      && (forall c :: c in r.categories <==> c in db.categories && c.id != id)
      && |r.transactions| == |db.transactions|
      && (forall i :: 0 <= i < |db.transactions| ==>
            r.transactions[i] == if db.transactions[i].categoryId == Some(id) && id in CategoryIds(db.categories)
                                 then db.transactions[i].(categoryId := None)
                                 else db.transactions[i])
  {
    match CategoryIndex(db.categories, id)
    case None =>
    case Some(k) => RemoveAtKey(db.categories, k);
  }

  /** Step 1: the first "Other" is reused; otherwise exactly one "Other" row, with the fresh id, is created. */
  lemma DeleteCategoryOtherRow(db: Db, id: int, freshId: int)
    requires UniqueCategoryIds(db.categories)
    requires FreshForOther(db.categories, freshId)
    ensures var r := DeleteCategory(db, id, freshId);
            var o := OtherId(db.categories, freshId);
      && (forall c :: c in r.categories ==> c in db.categories || c == Category(o, OtherName))
      && |r.categories| <= |db.categories| + 1
      && ((exists c :: c in db.categories && c.name == OtherName) ==>
            && (exists k :: 0 <= k < |db.categories| && db.categories[k] == Category(o, OtherName)
                         && forall j :: 0 <= j < k ==> db.categories[j].name != OtherName)
            && (forall c :: c in r.categories ==> c in db.categories))
      && ((forall c :: c in db.categories ==> c.name != OtherName) ==>
            && o !in CategoryIds(db.categories)
            && (o != id ==> Category(o, OtherName) in r.categories))
  {
    var cats := WithOther(db.categories, freshId);
    var o := OtherId(db.categories, freshId);
    WithOtherRows(db.categories, freshId);
    DeleteCategoryRowEffect(Db(cats, Retarget(db.transactions, id, Some(o))), id);
    match FirstNamed(db.categories, OtherName)
    case Some(k) =>
      assert db.categories[k] == Category(o, OtherName);
    case None =>
      assert |cats| == |db.categories| + 1;
  }

  /**
   * Step 3: the category `id` is gone, every other category stays, keys stay unique, and no
   * transaction references `id` any more; "Other" survives unless it was the one deleted.
   */
  lemma DeleteCategoryCategories(db: Db, id: int, freshId: int)
    requires UniqueCategoryIds(db.categories)
    requires FreshForOther(db.categories, freshId)
    ensures var r := DeleteCategory(db, id, freshId);
            var o := OtherId(db.categories, freshId);
      && (forall c :: c in r.categories ==> c.id != id)
      && (forall c :: c in db.categories && c.id != id ==> c in r.categories)
      && UniqueCategoryIds(r.categories)
      && (forall t :: t in r.transactions ==> t.categoryId != Some(id))
      && ((exists c :: c in r.categories && c.name == OtherName)
          <==> o != id || exists c :: c in db.categories && c.name == OtherName && c.id != id)
  {
    var cats := WithOther(db.categories, freshId);
    var o := OtherId(db.categories, freshId);
    var moved := Retarget(db.transactions, id, Some(o));
    WithOtherRows(db.categories, freshId);
    DeleteCategoryRowEffect(Db(cats, moved), id);
    var r := DeleteCategory(db, id, freshId);
    forall t | t in r.transactions
      ensures t.categoryId != Some(id)
    {
      var j :| 0 <= j < |r.transactions| && r.transactions[j] == t;
    }
  }

  /**
   * Steps 2 and 3 on the transactions: none is lost, and only `categoryId` changes, only on the
   * rows of `id`: they reference "Other", or are NULL when `id` is the "Other" row itself.
   */
  lemma DeleteCategoryTransactions(db: Db, id: int, freshId: int)
    ensures var r := DeleteCategory(db, id, freshId);
            var o := OtherId(db.categories, freshId);
      && |r.transactions| == |db.transactions|
      && forall i :: 0 <= i < |db.transactions| ==>
           var before, after := db.transactions[i], r.transactions[i];
           && after.id == before.id && after.amount == before.amount
           && after.date == before.date && after.description == before.description
           && after.categoryId == if before.categoryId != Some(id) then before.categoryId
                                  else if id == o then None
                                  else Some(o)
  {
    var cats := WithOther(db.categories, freshId);
    OtherInWithOther(db.categories, freshId);
    var moved := Retarget(db.transactions, id, Some(OtherId(db.categories, freshId)));
    match CategoryIndex(cats, id)
    case None =>
    case Some(k) =>
  }

  /**
   * After a category deletion the deleted category has no transactions and total 0; unless it
   * was "Other" itself, "Other" gains its transactions and total; every other category keeps its own.
   */
  lemma DeleteCategoryTotals(db: Db, id: int, freshId: int, x: int)
    ensures var r := DeleteCategory(db, id, freshId);
            var o := OtherId(db.categories, freshId);
      && Total(r.transactions, x)
         == (if x == id then 0
             else if x == o then Total(db.transactions, o) + Total(db.transactions, id)
             else Total(db.transactions, x))
      && |TransactionsOf(r.transactions, x)|
         == (if x == id then 0
             else if x == o then |TransactionsOf(db.transactions, o)| + |TransactionsOf(db.transactions, id)|
             else |TransactionsOf(db.transactions, x)|)
  {
    var cats := WithOther(db.categories, freshId);
    var o := OtherId(db.categories, freshId);
    OtherInWithOther(db.categories, freshId);
    var moved := Retarget(db.transactions, id, Some(o));
    var r := DeleteCategory(db, id, freshId);
    if id == o {
      RetargetToSelf(db.transactions, id);
      assert r.transactions == Retarget(db.transactions, id, None);
      RetargetTotals(db.transactions, id, None, x);
    } else {
      assert forall t :: t in moved ==> t.categoryId != Some(id) by {
        forall t | t in moved ensures t.categoryId != Some(id) {
          var j :| 0 <= j < |moved| && moved[j] == t;
        }
      }
      RetargetUnreferenced(moved, id, None);
      assert r.transactions == moved;
      RetargetTotals(db.transactions, id, Some(o), x);
    }
  }

  /**
   * Referential integrity survives a category deletion exactly when the deleted category is
   * not the "Other" row in use, or no transaction references it: deleting "Other" itself
   * leaves its transactions with a NULL category.
   */
  lemma DeleteCategoryIntegrity(db: Db, id: int, freshId: int)
    requires UniqueCategoryIds(db.categories)
    requires FreshForOther(db.categories, freshId)
    requires ReferencesValid(db)
    ensures ReferencesValid(DeleteCategory(db, id, freshId))
        <==> id != OtherId(db.categories, freshId) || forall t :: t in db.transactions ==> t.categoryId != Some(id)
  {
    var r := DeleteCategory(db, id, freshId);
    var o := OtherId(db.categories, freshId);
    DeleteCategoryCategories(db, id, freshId);
    DeleteCategoryTransactions(db, id, freshId);
    WithOtherRows(db.categories, freshId);
    assert o in CategoryIds(r.categories) || o == id by {
      if o != id {
        assert Category(o, OtherName) in r.categories;
      }
    }
    if id == o && exists t :: t in db.transactions && t.categoryId == Some(id) {
      var t :| t in db.transactions && t.categoryId == Some(id);
      var j :| 0 <= j < |db.transactions| && db.transactions[j] == t;
      assert r.transactions[j] in r.transactions;
    } else {
      forall t | t in r.transactions
        ensures t.categoryId.Some? && t.categoryId.value in CategoryIds(r.categories)
      {
        var j :| 0 <= j < |r.transactions| && r.transactions[j] == t;
        var before := db.transactions[j];
        assert before in db.transactions;
        if before.categoryId != Some(id) {
          var c :| c in db.categories && c.id == before.categoryId.value;
          assert c in r.categories;
        }
      }
    }
  }

  /** Deleting the only category, "Other", that three cents reference: the row is gone, the transaction's category is NULL, and no "Other" is left. */
  lemma DeleteOtherItselfOrphans()
    ensures var db := Db([Category(1, OtherName)], [Transaction(7, Some(1), 3, Date(2024, 1, 1), None)]);
            var r := DeleteCategory(db, 1, 2);
      && ReferencesValid(db)
      && r.categories == []
      && r.transactions == [Transaction(7, None, 3, Date(2024, 1, 1), None)]
      && !ReferencesValid(r)
  {
    var db := Db([Category(1, OtherName)], [Transaction(7, Some(1), 3, Date(2024, 1, 1), None)]);
    assert CategoryIds(db.categories) == {1};
    assert FirstNamed(db.categories, OtherName) == Some(0);
    assert Retarget(db.transactions, 1, Some(1)) == db.transactions;
    assert Retarget(db.transactions, 1, None) == [Transaction(7, None, 3, Date(2024, 1, 1), None)];
  }

  /**
   * Continuing from there, deleting any other id re-creates "Other", but the NULL row stays
   * detached: the new "Other" totals 0 and integrity stays broken.
   */
  lemma DeletedOtherRowsStayDetached()
    ensures var db := Db([], [Transaction(7, None, 3, Date(2024, 1, 1), None)]);
            var r := DeleteCategory(db, 99, 1);
      && r.categories == [Category(1, OtherName)]
      && r.transactions == db.transactions
      && Total(r.transactions, 1) == 0
      && !ReferencesValid(r)
  {
    var db := Db([], [Transaction(7, None, 3, Date(2024, 1, 1), None)]);
    assert Retarget(db.transactions, 99, Some(1)) == db.transactions;
    assert CategoryIndex([Category(1, OtherName)], 99) == None;
    assert db.transactions[..0] == [];
  }

  /**
   * Deleting an id no category has, when that id is the one the new "Other" row receives:
   * "Other" is created and then deleted in the same request, and the transaction that
   * referenced the id is left with a NULL category.
   */
  lemma DeleteAbsentIdTakenByNewOther()
    ensures var db := Db([Category(1, "Food")], [Transaction(7, Some(2), 3, Date(2024, 1, 1), None)]);
            var r := DeleteCategory(db, 2, 2);
      && FreshForOther(db.categories, 2)
      && r.categories == db.categories
      && r.transactions == [Transaction(7, None, 3, Date(2024, 1, 1), None)]
      && (forall c :: c in r.categories ==> c.name != OtherName)
      && !ReferencesValid(r)
  {
    var db := Db([Category(1, "Food")], [Transaction(7, Some(2), 3, Date(2024, 1, 1), None)]);
    assert CategoryIds(db.categories) == {1};
    assert FirstNamed(db.categories, OtherName) == None;
    var cats := WithOther(db.categories, 2);
    assert CategoryIndex(cats, 2) == Some(1);
    assert Retarget(db.transactions, 2, Some(2)) == db.transactions;
    assert Retarget(db.transactions, 2, None) == [Transaction(7, None, 3, Date(2024, 1, 1), None)];
    assert RemoveAt(cats, 1) == db.categories;
  }
}
