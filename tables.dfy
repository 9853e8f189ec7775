/**
 * The queries the handlers in main.py put to the store, as functions over the tables:
 * `.first()` lookups by name and by id, the filter on `category_id`, and the sums
 * the category list shows.
 */
module Tables {
  import opened Wrappers
  import opened Models

  /** `query(Category).filter(name == name).first()`: the position of the first category so named. */
  function FirstNamed(cats: seq<Category>, name: string): (r: Option<nat>)
    ensures r.Some? ==> r.value < |cats| && cats[r.value].name == name
    ensures r.Some? ==> forall k :: 0 <= k < r.value ==> cats[k].name != name
    ensures r.None? <==> forall c :: c in cats ==> c.name != name
  {
    if cats == [] then None
    else if cats[0].name == name then Some(0)
    else
      match FirstNamed(cats[1..], name)
      case None => None
      case Some(k) => Some(k + 1)
  }

  /** `query(Category).filter(id == id).first()`: the position of the first category with that id. */
  function CategoryIndex(cats: seq<Category>, id: int): (r: Option<nat>)
    ensures r.Some? ==> r.value < |cats| && cats[r.value].id == id
    ensures r.Some? ==> forall k :: 0 <= k < r.value ==> cats[k].id != id
    ensures r.None? <==> id !in CategoryIds(cats)
  {
    if cats == [] then None
    else if cats[0].id == id then Some(0)
    else
      match CategoryIndex(cats[1..], id)
      case None => None
      case Some(k) => Some(k + 1)
  }

  /** `query(Transaction).filter(id == id).first()`: the position of the first transaction with that id. */
  function TransactionIndex(txs: seq<Transaction>, id: int): (r: Option<nat>)
    ensures r.Some? ==> r.value < |txs| && txs[r.value].id == id
    ensures r.Some? ==> forall k :: 0 <= k < r.value ==> txs[k].id != id
    ensures r.None? <==> id !in TransactionIds(txs)
  {
    if txs == [] then None
    else if txs[0].id == id then Some(0)
    else
      match TransactionIndex(txs[1..], id)
      case None => None
      case Some(k) => Some(k + 1)
  }

  /**
   * `query(Transaction).filter(category_id == cid).all()`: the transactions of one category,
   * in table order. A NULL `category_id` equals no id.
   */
  function TransactionsOf(txs: seq<Transaction>, cid: int): (r: seq<Transaction>)
    ensures forall t :: t in r <==> t in txs && t.categoryId == Some(cid)
    ensures |r| <= |txs|
  {
    if txs == [] then []
    else
      var init, last := txs[..|txs| - 1], txs[|txs| - 1];
      assert txs == init + [last];
      TransactionsOf(init, cid) + if last.categoryId == Some(cid) then [last] else []
  }

  /** The filter keeps each matching row exactly as often as the table holds it, and no other row. */
  lemma {:induction false} TransactionsOfCounts(txs: seq<Transaction>, cid: int)
    ensures forall t :: multiset(TransactionsOf(txs, cid))[t]
                     == if t.categoryId == Some(cid) then multiset(txs)[t] else 0
  {
    if txs != [] {
      var init, last := txs[..|txs| - 1], txs[|txs| - 1];
      assert txs == init + [last];
      assert multiset(txs) == multiset(init) + multiset{last};
      TransactionsOfCounts(init, cid);
    }
  }

  /** The sum of the amounts of some rows. */
  function SumAmounts(txs: seq<Transaction>): int {
    if txs == [] then 0 else SumAmounts(txs[..|txs| - 1]) + txs[|txs| - 1].amount
  }

  /** The total shown for category `cid`: the sum over the transactions that reference it. */
  function Total(txs: seq<Transaction>, cid: int): int {
    if txs == [] then 0
    else
      var last := txs[|txs| - 1];
      Total(txs[..|txs| - 1], cid) + if last.categoryId == Some(cid) then last.amount else 0
  }

  lemma {:induction false} SumAmountsAppend(a: seq<Transaction>, b: seq<Transaction>)
    ensures SumAmounts(a + b) == SumAmounts(a) + SumAmounts(b)
    decreases |b|
  {
    if b != [] {
      var init := b[..|b| - 1];
      assert (a + b)[..|a + b| - 1] == a + init;
      SumAmountsAppend(a, init);
    } else {
      assert a + b == a;
    }
  }

  /** The total is what read_root computes: filter on the category, then add up the amounts. */
  lemma {:induction false} TotalIsSumOfFiltered(txs: seq<Transaction>, cid: int)
    ensures Total(txs, cid) == SumAmounts(TransactionsOf(txs, cid))
  {
    if txs != [] {
      var init, last := txs[..|txs| - 1], txs[|txs| - 1];
      TotalIsSumOfFiltered(init, cid);
      SumAmountsAppend(TransactionsOf(init, cid), if last.categoryId == Some(cid) then [last] else []);
      assert SumAmounts([last]) == last.amount by {
        assert [last][..0] == [];
      }
    }
  }

  /** A category that no transaction references totals 0. */
  lemma {:induction false} TotalOfUnreferenced(txs: seq<Transaction>, cid: int)
    requires forall t :: t in txs ==> t.categoryId != Some(cid)
    ensures Total(txs, cid) == 0
  {
    if txs != [] {
      var init := txs[..|txs| - 1];
      assert forall t :: t in init ==> t in txs;
      TotalOfUnreferenced(init, cid);
    }
  }

  /** How many categories carry `name`; names are not unique. */
  function CountNamed(cats: seq<Category>, name: string): nat {
    if cats == [] then 0
    else CountNamed(cats[..|cats| - 1], name) + if cats[|cats| - 1].name == name then 1 else 0
  }
}
