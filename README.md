# Expense tracker ledger: a Dafny model

The expense tracker keeps two tables, categories and transactions (models.py). Its request
handlers in main.py change them:

- seeding the default categories;
- adding and deleting transactions;
- adding categories;
- deleting a category, which first moves its transactions onto the sentinel category "Other";
- moving one transaction to another category.

Two read-only views exist: the category list with per-category totals, and one category's page.

This project models the store as an in-memory ledger:

- `models.dfy` (module `Models`): the rows, a snapshot of both tables, and the two integrity notions. A transaction's `category_id` is nullable (`models.py:17`), so `categoryId` is an `Option<int>`.
  - `KeysUnique`: the primary keys are unique; the store guarantees this.
  - `ReferencesValid`: every transaction has a category id, and it names an existing category; main.py never checks this.
- `tables.dfy` (module `Tables`): the queries the handlers issue, as functions.
  - `.first()` by name or by id;
  - the filter on `category_id`;
  - the totals.
- `handlers.dfy` (module `Handlers`): one function per mutating handler except seeding, from the tables before to the tables after, with the lemmas about them.
- `store.dfy` (module `Store`): class `Ledger`, holding the two tables as fields.
  - Each handler is a method that makes the change step by step.
  - Seeding (`InitDb`) states its result in its own contract. Every other mutating method is proved to produce exactly what the matching `Handlers` function describes.
  - Each method keeps the primary keys unique.

Referential integrity is deliberately not a class invariant, because the code does not enforce it.
The lemmas say exactly which handlers keep it and when the others break it.

Deleting a category (`main.py:92-119`) is modelled in three steps:

1. Get or create "Other".
2. Move the deleted category's transactions onto it.
3. Delete the row. The relationship between the tables (`models.py:11`, `models.py:22`) has no delete cascade, so when `db.delete` runs (`main.py:115`) the store sets `category_id` to NULL on every transaction that still references the row.

What is proved about it:

- No transaction is lost, and only `categoryId` changes, and only on the rows of the deleted category: they reference "Other", or are NULL when the deleted category is the "Other" row itself.
- Afterwards no transaction references the deleted id.
- At most one "Other" row is created, and only when none exists.
- When several categories are named "Other", the first one is used.
- Totals move from the deleted category to "Other", unless the deleted category is that "Other" itself, and every other total stays the same.
- Integrity survives exactly when the deleted category is not the "Other" row in use, or nothing references it.

Edge cases of the code:

- `add_transaction_post` and `change_category_post` do not check that the category exists (`main.py:62`, `main.py:126`). The model accepts the change, and `AddTransactionIntegrity` / `ChangeCategoryIntegrity` state what that does to integrity.
- Deleting the "Other" row in use sets the transactions that reference it to a NULL category. That breaks referential integrity when there are any, and leaves no "Other" unless another row has that name (`DeleteCategoryIntegrity`, `DeleteCategoryCategories`, `DeleteOtherItselfOrphans`). A later deletion re-creates "Other", but those rows stay NULL and the new "Other" does not count them (`DeletedOtherRowsStayDetached`).
- If a deleted id does not exist but equals the id the new "Other" row receives, "Other" is created and deleted again in the same request, and the transactions that referenced the id end with a NULL category (`DeleteAbsentIdTakenByNewOther`).

New ids are whatever the store allocates. The model computes one above every existing id. Contracts promise only that the id is fresh in its table, and the methods return the id they used.

## Model

| member | source | states |
|---|---|---|
| Models.NextCategoryId | models.py:8 | the id given to a new category is positive and larger than every existing category id, so it is fresh |
| Models.NextTransactionId | models.py:16 | the id given to a new transaction is positive and larger than every existing transaction id, so it is fresh |
| Tables.FirstNamed | main.py:96 | finds the position of the first category with the name, with no earlier one so named; finds none exactly when no category has that name |
| Tables.CategoryIndex | main.py:113 | finds the position of the first category with the id; finds none exactly when the id is not a category id |
| Tables.TransactionIndex | main.py:78 | finds the position of the first transaction with the id; finds none exactly when the id is not a transaction id |
| Tables.TransactionsOfCounts | main.py:71 | the filter keeps each transaction whose category_id is the given id exactly as many times as the table holds it, and no other row |
| Tables.TransactionsOf | main.py:71 | a row is in the result exactly when it is a transaction whose category_id is the given id (a NULL category_id matches no id), and the result is no longer than the table; multiplicities are in `TransactionsOfCounts` |
| Tables.TotalIsSumOfFiltered | main.py:42-43 | a category's total equals the sum of the amounts of the rows the category_id filter returns |
| Tables.TotalOfUnreferenced | main.py:43 | a category that no transaction references totals 0 |
| Handlers.AddTransactionEffect | main.py:62-64 | adding keeps every old row and the categories; it adds exactly one new row with the given fields; keys stay unique given a fresh id; only the given category's total rises, by the amount |
| Handlers.AddTransactionIntegrity | main.py:62 | with no existence check, integrity holds after adding exactly when the given category exists |
| Handlers.RemoveAtTransactionKey | main.py:78-80 | deleting the transaction row found by id removes exactly the rows with that id, one row in all, and keeps keys unique |
| Handlers.DeleteTransactionEffect | main.py:78-81 | the remaining rows are exactly the old rows with a different id; one fewer row when the id existed; the store is unchanged when it did not; categories, key uniqueness and integrity are kept |
| Handlers.AddCategoryEffect | main.py:87-89 | adding keeps every category and transaction and adds the fresh id; one more category carries the name, so duplicates such as a second "Other" are allowed; keys and integrity are kept |
| Handlers.ChangeCategoryEffect | main.py:124-127 | only the row with the given id changes, and only its category_id, to the new value; the store is unchanged when no row has that id; keys stay unique |
| Handlers.ChangeCategoryIntegrity | main.py:126 | with no existence check, integrity holds after the change exactly when no row has that id or the target category exists |
| Handlers.RetargetToSelf | main.py:105-108 | moving a category's transactions to that same category changes nothing |
| Handlers.RetargetTotals | main.py:105-108 | after the transactions of one category move to another category or to NULL, the first has no transactions and total 0; a target category gains both the rows and the total; every other category keeps its own |
| Handlers.WithOtherRows | main.py:96-100 | the get-or-create step keeps every category; the only row it may add is "Other" with the chosen id; keys stay unique |
| Handlers.RemoveAtKey | main.py:113-115 | deleting the row found by id removes exactly the rows with that id and keeps keys unique |
| Handlers.DeleteCategoryRowEffect | main.py:113-115 | deleting a category row removes exactly the categories with that id and keeps keys unique; when the category existed, the transactions that referenced it become NULL and all others are unchanged; when it did not, no transaction changes |
| Handlers.DeleteCategoryOtherRow | main.py:96-101 | the "Other" used is the first so named; if one existed, no category is created; if none existed, exactly one "Other" with a fresh id is created, and it remains unless it is itself the deleted id |
| Handlers.DeleteCategoryCategories | main.py:96-116 | afterwards no category has the deleted id; every other category remains; keys stay unique; no transaction references the deleted id; an "Other" remains exactly when the used one was not deleted or another "Other" exists |
| Handlers.DeleteCategoryTransactions | main.py:105-115 | the number of transactions is unchanged; every id, amount, date and description is unchanged; rows of the deleted category now carry Other's id, or NULL when the deleted category is Other itself; all other rows keep their category_id |
| Handlers.DeleteCategoryTotals | main.py:105-115 | the deleted category ends with no transactions and total 0; unless it was "Other" itself, "Other" gains its transaction count and total; every other category's count and total are unchanged |
| Handlers.DeleteCategoryIntegrity | main.py:96-116 | integrity survives exactly when the deleted id is not the "Other" in use, or no transaction references it |
| Handlers.DeleteOtherItselfOrphans | main.py:96-116 | deleting the only category, "Other", removes it and leaves its transaction with a NULL category, so integrity breaks and no "Other" is left |
| Handlers.DeletedOtherRowsStayDetached | main.py:96-116 | after that, deleting any other id re-creates "Other", but the NULL transaction stays NULL, the new "Other" totals 0, and integrity stays broken |
| Handlers.DeleteAbsentIdTakenByNewOther | main.py:98-115 | deleting an absent id equal to the new "Other" row's id creates that row and deletes it again; the transaction that referenced the id ends with a NULL category, and no "Other" is left |
| Store.Ledger.constructor | main.py:14 | a newly created database has both tables empty |
| Store.Ledger.InitDb | main.py:23-31 | on an empty category table it adds exactly Food, Transportation, Entertainment, Utilities, Other, in order, with distinct ids; otherwise it changes nothing; afterwards categories are non-empty, so a second call changes nothing; transactions are untouched |
| Store.Ledger.ReadRoot | main.py:38-44 | lists every category in table order with the sum of amounts over exactly its transactions; has no modifies clause, so it changes no table |
| Store.Ledger.ReadCategory | main.py:68-73 | returns the first category with that id, if there is one, and exactly the transactions whose category_id is that id, each as many times as the table holds it, plus all categories; it only reads |
| Store.Ledger.AddTransaction | main.py:53-65 | stores one new row under a fresh id, as `Handlers.AddTransaction` describes, with no category check |
| Store.Ledger.DeleteTransaction | main.py:76-82 | the new tables are `Handlers.DeleteTransaction` of the old ones; integrity is kept |
| Store.Ledger.AddCategory | main.py:85-90 | appends one category under a fresh id, as `Handlers.AddCategory` describes; integrity is kept |
| Store.Ledger.GetOrCreateOther | main.py:96-102 | returns the id of the first "Other", or appends a new "Other" under a fresh id; transactions are untouched |
| Store.Ledger.MoveTransactions | main.py:105-110 | the loop moves every transaction of the deleted category to the target ("Other", or NULL when a row is deleted) and changes nothing else |
| Store.Ledger.RemoveCategory | main.py:113-117 | the new tables are `Handlers.DeleteCategoryRow` of the old ones: the category with that id, if present, is removed, every other category kept, and the transactions that referenced it become NULL |
| Store.Ledger.DeleteCategory | main.py:92-119 | the new tables are `Handlers.DeleteCategory` of the old ones, with the first "Other" reused or one freshly created; integrity is kept whenever the deleted id is not Other's |
| Store.Ledger.ChangeCategory | main.py:121-128 | the new tables are `Handlers.ChangeCategory` of the old ones; integrity is kept whenever the target category exists |

## Left out

- HTTP routing, form parsing and coercion, template rendering, the `/add` form page with today's date, and the server entry point (`main.py:1-11`, `main.py:46-51`, `main.py:130-132`): these are interface plumbing.
- `get_db`, the session machinery and `database.py`: `database.py` is not part of this model, and the session is replaced by the two in-memory tables. Of the ORM relationship, only its effect on deletion (NULLing `category_id`) is modelled; lazy loading through it is not.
- The separate commits inside `delete_category_post`, and any interleaving of concurrent requests: each handler is one sequential step on the store.
- Floating-point amounts: amounts are whole cents, and sums are exact.
- The foreign key at `models.py:17` is taken as not enforced by the database (SQLite's default; `database.py` is not part of this model), so a transaction may name an absent category. With an enforcing engine, adding or changing a transaction to an unknown category would fail and store nothing, and the states `AddTransactionIntegrity`, `ChangeCategoryIntegrity` and `DeleteAbsentIdTakenByNewOther` describe would not be reached.
- Row order: the queries at `main.py:40`, `main.py:70`, `main.py:96` and `main.py:113` have no ORDER BY; rows are taken to be listed, and `.first()` to find them, in insertion order, which is id order.
- Logging and the clock: they do not affect the tables.
- The store's id-allocation policy: new ids are only promised to be fresh in their table.
- Store.Ledger.ReadRoot: the response also carries the request and renders a page; only the list of categories with totals is modelled.
