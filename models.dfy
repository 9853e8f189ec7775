/**
 * The two tables of the expense tracker (models.py): categories and transactions.
 * A table is a sequence of rows in insertion order. The queries carry no ORDER BY; the
 * model takes insertion order as the order in which the store lists rows and in which a
 * `.first()` query finds them.
 */
module Models {
  import opened Wrappers

  /** A calendar date. Parsing it from a form field is not modelled. */
  datatype Date = Date(year: int, month: int, day: int)

  datatype Category = Category(id: int, name: string)

  /**
   * A transaction row. `categoryId` is a nullable foreign key: no handler checks that it names
   * an existing category, and it becomes `None` (NULL) when the store deletes the category it
   * still names, because the relationship between the tables has no delete cascade.
   * Amounts are whole cents: floating-point arithmetic is not modelled.
   */
  datatype Transaction = Transaction(
    id: int,
    categoryId: Option<int>,
    amount: int,
    date: Date,
    description: Option<string>)

  /** Both tables at one moment. */
  datatype Db = Db(categories: seq<Category>, transactions: seq<Transaction>)

  /** The sentinel category that absorbs the transactions of a deleted category. */
  const OtherName: string := "Other"

  /** The categories seeded into an empty store, in this order. */
  const DefaultCategories: seq<string> := ["Food", "Transportation", "Entertainment", "Utilities", "Other"]

  function CategoryIds(cats: seq<Category>): set<int> {
    set c | c in cats :: c.id
  }

  function TransactionIds(txs: seq<Transaction>): set<int> {
    set t | t in txs :: t.id
  }

  ghost predicate UniqueCategoryIds(cats: seq<Category>) {
    forall i, j :: 0 <= i < j < |cats| ==> cats[i].id != cats[j].id
  }

  ghost predicate UniqueTransactionIds(txs: seq<Transaction>) {
    forall i, j :: 0 <= i < j < |txs| ==> txs[i].id != txs[j].id
  }

  /** Both `id` columns are primary keys: the store keeps them unique. */
  ghost predicate KeysUnique(db: Db) {
    UniqueCategoryIds(db.categories) && UniqueTransactionIds(db.transactions)
  }

  /**
   * Referential integrity: every transaction names a category that exists (and none is NULL).
   * The store does not enforce this; it is a property some handlers keep and others break.
   */
  ghost predicate ReferencesValid(db: Db) {
    forall t :: t in db.transactions ==> t.categoryId.Some? && t.categoryId.value in CategoryIds(db.categories)
  }

  /** An id no current category row uses (the store's own allocation policy is not modelled). */
  function NextCategoryId(cats: seq<Category>): (r: int)
    ensures r > 0
    ensures forall c :: c in cats ==> c.id < r
  {
    if cats == [] then 1
    else
      var rest := NextCategoryId(cats[1..]);
      if cats[0].id < rest then rest else cats[0].id + 1
  }

  /** An id no current transaction row uses. */
  function NextTransactionId(txs: seq<Transaction>): (r: int)
    ensures r > 0
    ensures forall t :: t in txs ==> t.id < r
  {
    if txs == [] then 1
    else
      var rest := NextTransactionId(txs[1..]);
      if txs[0].id < rest then rest else txs[0].id + 1
  }
}
