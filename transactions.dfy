/** The transaction ledger (app.js:1, 501-555) and the week filter over it
    (app.js:487-494).  The page keeps one module-level array of transactions;
    submitting the form appends to it and the delete button replaces it by a
    filtered copy. */
module Transactions {
  import opened Seqs
  import opened Calendar
  import Currency

  /** One entry as the page stores it.  `kind` is the source's `type` field:
      the form offers "income" and "expense", but the stored value is a plain
      string and the aggregates compare it literally. */
  datatype Transaction = Transaction(
    id: int,
    kind: string,
    category: string,
    amount: nat,
    description: string,
    date: int)

  function HasOtherId(id: int): Transaction -> bool
  {
    (t: Transaction) => t.id != id
  }

  /** `transactions.filter(t => t.id !== id)` (app.js:550). */
  function WithoutId(ts: seq<Transaction>, id: int): (r: seq<Transaction>)
    ensures forall t :: t in r <==> t in ts && t.id != id
  {
    FilterMembers(ts, HasOtherId(id));
    Filter(ts, HasOtherId(id))
  }

  /** Deleting removes every copy of every entry carrying the id and keeps
      every other entry, each as often as before and in the original order. */
  lemma DeleteKeepsOthersInOrder(ts: seq<Transaction>, id: int)
    ensures IsSubsequence(WithoutId(ts, id), ts)
    ensures forall t :: multiset(WithoutId(ts, id))[t] == if t.id != id then multiset(ts)[t] else 0
  {
    FilterIsSubsequence(ts, HasOtherId(id));
    forall t ensures multiset(WithoutId(ts, id))[t] == if t.id != id then multiset(ts)[t] else 0 {
      FilterCount(ts, HasOtherId(id), t);
    }
  }

  /** Deleting an id that no entry carries leaves the ledger as it was. */
  lemma DeleteAbsentIsNoOp(ts: seq<Transaction>, id: int)
    requires forall i :: 0 <= i < |ts| ==> ts[i].id != id
    ensures WithoutId(ts, id) == ts
  {
    FilterAllPass(ts, HasOtherId(id));
  }

  /** Deleting the entry just added, under a fresh id, restores the ledger. */
  lemma DeleteUndoesAdd(ts: seq<Transaction>, t: Transaction)
    requires forall i :: 0 <= i < |ts| ==> ts[i].id != t.id
    ensures WithoutId(ts + [t], t.id) == ts
  {
    FilterAppend(ts, [t], HasOtherId(t.id));
    DeleteAbsentIsNoOp(ts, t.id);
    assert Filter([t], HasOtherId(t.id)) == [];
  }

  function InWeek(w: WeekWindow): Transaction -> bool
  {
    (t: Transaction) => Contains(w, t.date)
  }

  /** `getWeekTransactions(offset)` on day `today`: the entries dated in that
      week, the first and the last day included. */
  function WeekTransactions(ts: seq<Transaction>, offset: int, today: int): (r: seq<Transaction>)
    ensures forall t :: t in r <==> t in ts && Contains(GetWeekRange(offset, today), t.date)
  {
    var w := GetWeekRange(offset, today);
    FilterMembers(ts, InWeek(w));
    Filter(ts, InWeek(w))
  }

  /** The week's entries are taken in ledger order, each as often as it occurs. */
  lemma WeekTransactionsInOrder(ts: seq<Transaction>, offset: int, today: int)
    ensures IsSubsequence(WeekTransactions(ts, offset, today), ts)
    ensures forall t :: multiset(WeekTransactions(ts, offset, today))[t] ==
                         if Contains(GetWeekRange(offset, today), t.date) then multiset(ts)[t] else 0
  {
    var w := GetWeekRange(offset, today);
    FilterIsSubsequence(ts, InWeek(w));
    forall t ensures multiset(Filter(ts, InWeek(w)))[t] == if Contains(w, t.date) then multiset(ts)[t] else 0 {
      FilterCount(ts, InWeek(w), t);
    }
  }

  /** An entry dated on the Sunday that ends a week belongs to that week and
      not to the following one. */
  lemma SundayEntryStaysInItsWeek(ts: seq<Transaction>, offset: int, today: int, t: Transaction)
    requires t in ts && t.date == GetWeekRange(offset, today).end
    ensures GetDay(t.date) == 0
    ensures t in WeekTransactions(ts, offset, today)
    ensures t !in WeekTransactions(ts, offset + 1, today)
  {
    WeeksAdjacent(offset, today);
  }

  /** The page's ledger. */
  class Ledger {
    var transactions: seq<Transaction>

    /** The ledger as loaded from storage (an empty one when nothing is stored). */
    constructor (stored: seq<Transaction>)
      ensures transactions == stored
    {
      transactions := stored;
    }

    /** The form submit handler (app.js:522-533): the clock reading `now`
        becomes the id, the amount text is parsed, and the new entry is
        pushed at the end. */
    method Submit(now: int, kind: string, category: string, amountText: string, description: string, date: int)
      modifies this
      ensures transactions == old(transactions) +
        [Transaction(now, kind, category, Currency.ParseFormattedCurrency(amountText), description, date)]
    {
      var t := Transaction(now, kind, category, Currency.ParseFormattedCurrency(amountText), description, date);
      transactions := transactions + [t];
    }

    /** `deleteTransaction(id)` (app.js:549-550). */
    method Delete(id: int)
      modifies this
      ensures transactions == WithoutId(old(transactions), id)
    {
      transactions := WithoutId(transactions, id);
    }
  }

  /** `getCategoryLabel` (app.js:584-601): the display name of a category key. */
  const Labels: map<string, string> := map[
    "gaji" := "Gaji",
    "bonus" := "Bonus",
    "freelance" := "Freelance",
    "investasi" := "Hasil Investasi",
    "lainnya-masuk" := "Lainnya",
    "makanan" := "Makanan & Minuman",
    "transportasi" := "Transportasi",
    "belanja" := "Belanja",
    "tagihan" := "Tagihan",
    "hiburan" := "Hiburan",
    "kesehatan" := "Kesehatan",
    "pendidikan" := "Pendidikan",
    "lainnya-keluar" := "Lainnya"
  ]

  /** `labels[category] || category`: a known key gives its label (all labels
      are non-empty), any other category is shown as it is. */
  function CategoryLabel(category: string): (shown: string)
    ensures category in Labels ==> shown == Labels[category] && shown != []
    ensures category !in Labels ==> shown == category
  {
    if category in Labels && Labels[category] != [] then Labels[category] else category
  }

  /** No label is itself a key, so labelling a label changes nothing. */
  lemma CategoryLabelIdempotent(category: string)
    ensures CategoryLabel(CategoryLabel(category)) == CategoryLabel(category)
  {
    assert forall k :: k in Labels ==> Labels[k] !in Labels;
  }
}
