/** `IncomeViewModel`: the in-memory income ledger and its transitions. Every public
    method is a function from the state before to the state after; each coroutine body
    runs as one step, and the update-broadcast hook it invokes is a no-op here. */
module IncomeViewModel {
  import opened Maybe
  import opened Seqs
  import opened Text
  import opened Dates
  import opened Ledger
  import StandardCategories

  /** The "IncomePrefs" preference file, one field per key, `None` for an absent key.
      Values are kept decoded: the JSON round trip is taken to be the identity. */
  datatype Prefs = Prefs(
    categories: Option<seq<string>>,     // "categories"
    transactions: Option<seq<Tx>>,       // "IncomeTransactions"
    incomes: Option<map<string, int>>,   // "incomes"
    categoriesHash: Option<string>)      // "categories_hash"

  /** The view model's observable fields plus the preference file it writes through to. */
  datatype State = State(
    categories: seq<string>,
    transactions: seq<Tx>,
    categoryIncomes: map<string, int>,
    totalIncome: int,
    sortType: SortType,
    sorted: seq<Tx>,     // `sortedTransactions`
    filtered: seq<Tx>,   // `filteredTransactions`
    prefs: Prefs)

  /** `loadIncomeTransactions()`: the stored list, or empty when the key is absent. */
  function StoredTransactions(p: Prefs): (r: seq<Tx>)
    ensures p.transactions.Some? ==> r == p.transactions.value
    ensures p.transactions.None? ==> r == []
  {
    p.transactions.GetOr([])
  }

  /** The aggregates describe the lists: one entry per listed category holding the sum of
      that category's amounts, and a total over every transaction, listed or not. */
  ghost predicate Consistent(st: State)
  {
    && (forall c :: c in st.categoryIncomes <==> c in st.categories)
    && (forall c :: c in st.categories ==> st.categoryIncomes[c] == Total(OfCategory(st.transactions, c)))
    && st.totalIncome == Total(st.transactions)
  }

  /** The preference file holds exactly the lists in memory. */
  predicate Synced(st: State)
  {
    st.prefs.categories == Some(st.categories) && StoredTransactions(st.prefs) == st.transactions
  }

  /** `sortedTransactions` is the transaction list stably sorted by `k`: the same elements,
      in the order `k` selects, with transactions of equal key in their list order. */
  ghost predicate SortedView(st: State, k: SortType)
  {
    && multiset(st.sorted) == multiset(st.transactions)
    && Sorted(k, st.sorted)
    && forall t :: KeyClass(k, st.sorted, t) == KeyClass(k, st.transactions, t)
  }

  // ---------------------------------------------------------------- aggregates and sort

  /** `updateIncomes(Incomes)`: a non-empty map passed in is taken as the per-category
      totals; otherwise they are recomputed. The total is always recomputed, and the
      per-category map is written to "incomes". */
  function UpdateIncomes(st: State, overrides: map<string, int>): (r: State)
    ensures |overrides| > 0 ==> r.categoryIncomes == overrides
    ensures |overrides| == 0 ==> Consistent(r)
    ensures r.totalIncome == Total(st.transactions)
    ensures r.prefs == st.prefs.(incomes := Some(r.categoryIncomes))
    ensures r == st.(categoryIncomes := r.categoryIncomes, totalIncome := r.totalIncome, prefs := r.prefs)
  {
    var incomes :=
      if |overrides| > 0 then overrides
      else map c | c in st.categories :: Total(OfCategory(st.transactions, c));
    st.(categoryIncomes := incomes, totalIncome := Total(st.transactions),
        prefs := st.prefs.(incomes := Some(incomes)))
  }

  /** `updateIncomes()` with its default argument. */
  function Recompute(st: State): State
  {
    UpdateIncomes(st, map[])
  }

  /** `sortTransactions(k)`: remember `k` and show a stable sort of the transactions by it. */
  function SortTransactions(st: State, k: SortType): (r: State)
    ensures r.sortType == k
    ensures SortedView(r, k)
    ensures forall t :: KeyClass(k, r.sorted, t) == KeyClass(k, st.transactions, t)
    ensures r == st.(sortType := k, sorted := r.sorted)
  {
    st.(sortType := k, sorted := SortBy(k, st.transactions))
  }

  // ---------------------------------------------------------------- persistence

  /** `saveCategories(list)`: write the list to "categories"; memory is not touched. */
  function SaveCategories(st: State, cats: seq<string>): (r: State)
    ensures r.prefs.categories == Some(cats)
    ensures r.prefs.transactions == st.prefs.transactions && r.prefs.incomes == st.prefs.incomes
    ensures r.prefs.categoriesHash == st.prefs.categoriesHash
    ensures r == st.(prefs := r.prefs)
  {
    st.(prefs := st.prefs.(categories := Some(cats)))
  }

  /** `saveTransactionsToPreferences(list)`: write the list to "IncomeTransactions"; memory is not
      touched. */
  function SaveTransactions(st: State, txs: seq<Tx>): (r: State)
    ensures r.prefs.transactions == Some(txs)
    ensures r.prefs.categories == st.prefs.categories && r.prefs.incomes == st.prefs.incomes
    ensures r.prefs.categoriesHash == st.prefs.categoriesHash
    ensures r == st.(prefs := r.prefs)
  {
    st.(prefs := st.prefs.(transactions := Some(txs)))
  }

  /** What is saved is what the next load reads back: `loadCategories()` and
      `loadIncomeTransactions()` return the lists last written. */
  lemma SaveThenLoadRoundTrip(st: State, cats: seq<string>, txs: seq<Tx>)
    ensures var r := LoadDataIncome(SaveTransactions(SaveCategories(st, cats), txs));
      r.categories == cats && r.transactions == txs
  {
  }

  /** `loadDataIncome()`: read both lists back (seeding and saving the default categories
      when none are stored), recompute the aggregates and re-sort. */
  function LoadDataIncome(st: State): (r: State)
    ensures Consistent(r) && Synced(r)
    ensures r.sortType == st.sortType && SortedView(r, st.sortType)
    ensures st.prefs.categories.None? ==> r.categories == StandardCategories.IncomeCategories()
    ensures Synced(st) ==> r.categories == st.categories && r.transactions == st.transactions
    ensures r.categories == st.prefs.categories.GetOr(StandardCategories.IncomeCategories())
    ensures r.transactions == StoredTransactions(st.prefs)
    ensures r.prefs == st.prefs.(categories := Some(r.categories), incomes := Some(r.categoryIncomes))
    ensures r.filtered == st.filtered
  {
    var withCategories :=
      if st.prefs.categories.Some? then st.(categories := st.prefs.categories.value)
      else
        var defaults := StandardCategories.IncomeCategories();
        SaveCategories(st, defaults).(categories := defaults);
    var loaded := withCategories.(transactions := StoredTransactions(st.prefs));
    SortTransactions(Recompute(loaded), st.sortType)
  }

  /** Construction: empty fields, date order, then `loadDataIncome()`. */
  function Create(p: Prefs): (r: State)
    ensures Consistent(r) && Synced(r)
    ensures r.sortType == DATE && SortedView(r, DATE)
    ensures r.transactions == StoredTransactions(p)
    ensures r.categories == p.categories.GetOr(StandardCategories.IncomeCategories())
    ensures r.filtered == []
    ensures r.prefs == p.(categories := Some(r.categories), incomes := Some(r.categoryIncomes))
  {
    LoadDataIncome(State([], [], map[], 0, DATE, [], [], p))
  }

  /** Loading twice is the same as loading once. */
  lemma LoadDataIncomeIdempotent(st: State)
    ensures LoadDataIncome(LoadDataIncome(st)) == LoadDataIncome(st)
  {
  }

  // ---------------------------------------------------------------- categories

  /** `addCategory(name)`: append a name that is not listed yet; a listed name changes nothing. */
  function AddCategory(st: State, name: string): (r: State)
    ensures name in st.categories ==> r == st
    ensures name !in st.categories ==>
      && r.categories == st.categories + [name]
      && r.transactions == st.transactions
      && r.prefs == st.prefs.(categories := Some(r.categories), incomes := Some(r.categoryIncomes))
      && Consistent(r) && (Synced(st) ==> Synced(r))
      && r.sortType == st.sortType && r.sorted == st.sorted && r.filtered == st.filtered
  {
    if name in st.categories then st
    else
      var cats := st.categories + [name];
      Recompute(SaveCategories(st, cats).(categories := cats))
  }

  /** `updateCategories(list)`: replace the whole list (duplicates and all) and recompute. */
  function UpdateCategories(st: State, cats: seq<string>): (r: State)
    ensures r.categories == cats && r.prefs.categories == Some(cats)
    ensures r.prefs == st.prefs.(categories := Some(cats), incomes := Some(r.categoryIncomes))
    ensures r.transactions == st.transactions
    ensures Consistent(r)
    ensures Synced(st) ==> Synced(r)
    ensures r.sortType == st.sortType && r.sorted == st.sorted && r.filtered == st.filtered
  {
    Recompute(SaveCategories(st, cats).(categories := cats))
  }

  /** The category list without `c`: every other name keeps its occurrences and order. */
  function RemoveName(cats: seq<string>, c: string): (r: seq<string>)
    ensures c !in r
    ensures forall x :: x != c ==> multiset(r)[x] == multiset(cats)[x]
    ensures IsSubsequence(r, cats)
  {
    var keep := (x: string) => x != c;
    var r := Filter(cats, keep);
    assert forall x :: x != c ==> multiset(r)[x] == multiset(cats)[x] by {
      forall x | x != c
        ensures multiset(r)[x] == multiset(cats)[x]
      {
        FilterCount(cats, keep, x);
      }
    }
    FilterSubsequence(cats, keep);
    r
  }

  /** `incomeDeleteCategory(c)`: drop the name and, cascading, every transaction filed under it. */
  function DeleteCategory(st: State, c: string): (r: State)
    ensures c !in r.categories
    ensures forall x :: x != c ==> multiset(r.categories)[x] == multiset(st.categories)[x]
    ensures IsSubsequence(r.categories, st.categories)
    ensures forall t :: t in r.transactions ==> t.category != c
    ensures forall t: Tx :: t.category != c ==> multiset(r.transactions)[t] == multiset(st.transactions)[t]
    ensures IsSubsequence(r.transactions, st.transactions)
    ensures c !in r.categoryIncomes
    ensures Consistent(r) && Synced(r)
    ensures r.totalIncome == Total(st.transactions) - Total(OfCategory(st.transactions, c))
    ensures r.sortType == st.sortType && SortedView(r, st.sortType) && r.filtered == st.filtered
    ensures r.prefs == st.prefs.(categories := Some(r.categories), transactions := Some(r.transactions),
                                 incomes := Some(r.categoryIncomes))
  {
    var cats := RemoveName(st.categories, c);
    var txs := NotOfCategory(st.transactions, c);
    TotalSplitsOnCategory(st.transactions, c);
    var saved := SaveTransactions(SaveCategories(st, cats), txs);
    SortTransactions(Recompute(saved.(categories := cats, transactions := txs)), st.sortType)
  }

  /** The category list with every entry equal to `oldName` replaced by `newName`. */
  function RenameCategories(cats: seq<string>, oldName: string, newName: string): (r: seq<string>)
    ensures |r| == |cats|
    ensures forall i :: 0 <= i < |cats| ==> r[i] == if cats[i] == oldName then newName else cats[i]
  {
    if |cats| == 0 then []
    else [if cats[0] == oldName then newName else cats[0]] + RenameCategories(cats[1..], oldName, newName)
  }

  /** The transactions with every category field equal to `oldName` set to `newName`. */
  function RenameTransactions(txs: seq<Tx>, oldName: string, newName: string): (r: seq<Tx>)
    ensures |r| == |txs|
    ensures forall i :: 0 <= i < |txs| ==>
      r[i] == if txs[i].category == oldName then txs[i].(category := newName) else txs[i]
  {
    if |txs| == 0 then []
    else [if txs[0].category == oldName then txs[0].(category := newName) else txs[0]]
         + RenameTransactions(txs[1..], oldName, newName)
  }

  /** Renaming moves no money. */
  lemma {:induction false} RenameKeepsTotal(txs: seq<Tx>, oldName: string, newName: string)
    ensures Total(RenameTransactions(txs, oldName, newName)) == Total(txs)
    decreases |txs|
  {
    if |txs| > 0 {
      RenameKeepsTotal(txs[1..], oldName, newName);
      assert RenameTransactions(txs, oldName, newName)[1..] == RenameTransactions(txs[1..], oldName, newName);
    }
  }

  /** After renaming `oldName` to a different `newName`, `newName` holds what both names held before. */
  lemma {:induction false} RenameMergesCategory(txs: seq<Tx>, oldName: string, newName: string)
    ensures oldName != newName ==> OfCategory(RenameTransactions(txs, oldName, newName), oldName) == []
    ensures oldName != newName ==>
      Total(OfCategory(RenameTransactions(txs, oldName, newName), newName))
        == Total(OfCategory(txs, oldName)) + Total(OfCategory(txs, newName))
    decreases |txs|
  {
    if |txs| > 0 && oldName != newName {
      var r := RenameTransactions(txs, oldName, newName);
      var rest := RenameTransactions(txs[1..], oldName, newName);
      RenameMergesCategory(txs[1..], oldName, newName);
      assert r == [r[0]] + rest;
      assert txs == [txs[0]] + txs[1..];
      if txs[0].category == oldName {
        assert OfCategory(r, oldName) == OfCategory(rest, oldName);
        assert OfCategory(r, newName) == [r[0]] + OfCategory(rest, newName);
        TotalAppend([r[0]], OfCategory(rest, newName));
        assert OfCategory(txs, oldName) == [txs[0]] + OfCategory(txs[1..], oldName);
        TotalAppend([txs[0]], OfCategory(txs[1..], oldName));
        assert OfCategory(txs, newName) == OfCategory(txs[1..], newName);
      } else if txs[0].category == newName {
        assert OfCategory(r, oldName) == OfCategory(rest, oldName);
        assert OfCategory(r, newName) == [r[0]] + OfCategory(rest, newName);
        TotalAppend([r[0]], OfCategory(rest, newName));
        assert OfCategory(txs, oldName) == OfCategory(txs[1..], oldName);
        assert OfCategory(txs, newName) == [txs[0]] + OfCategory(txs[1..], newName);
        TotalAppend([txs[0]], OfCategory(txs[1..], newName));
      } else {
        assert OfCategory(r, oldName) == OfCategory(rest, oldName);
        assert OfCategory(r, newName) == OfCategory(rest, newName);
        assert OfCategory(txs, oldName) == OfCategory(txs[1..], oldName);
        assert OfCategory(txs, newName) == OfCategory(txs[1..], newName);
      }
    }
  }

  /** `IncomeEditCategory`: rename a category in the list and in every transaction. */
  function EditCategory(st: State, oldName: string, newName: string): (r: State)
    ensures |r.categories| == |st.categories| && |r.transactions| == |st.transactions|
    ensures forall i :: 0 <= i < |st.categories| ==>
      r.categories[i] == if st.categories[i] == oldName then newName else st.categories[i]
    ensures forall i :: 0 <= i < |st.transactions| ==>
      r.transactions[i] == if st.transactions[i].category == oldName then st.transactions[i].(category := newName) else st.transactions[i]
    ensures Consistent(r) && Synced(r)
    ensures r.sortType == st.sortType && SortedView(r, st.sortType) && r.filtered == st.filtered
    ensures r.prefs == st.prefs.(categories := Some(r.categories), transactions := Some(r.transactions),
                                 incomes := Some(r.categoryIncomes))
  {
    var cats := RenameCategories(st.categories, oldName, newName);
    var txs := RenameTransactions(st.transactions, oldName, newName);
    var saved := SaveTransactions(SaveCategories(st, cats), txs);
    SortTransactions(Recompute(saved.(categories := cats, transactions := txs)), st.sortType)
  }

  /** Renaming moves no money: the total is unchanged. */
  lemma EditCategoryKeepsTotal(st: State, oldName: string, newName: string)
    ensures EditCategory(st, oldName, newName).totalIncome == Total(st.transactions)
  {
    RenameKeepsTotal(st.transactions, oldName, newName);
  }

  /** After renaming to a different name, the old name is gone from the list and the totals,
      and no transaction is filed under it any more. */
  lemma EditCategoryRemovesOldName(st: State, oldName: string, newName: string)
    requires oldName != newName
    ensures var r := EditCategory(st, oldName, newName);
      oldName !in r.categories && oldName !in r.categoryIncomes
      && forall t :: t in r.transactions ==> t.category != oldName
  {
    var r := EditCategory(st, oldName, newName);
    forall t | t in r.transactions
      ensures t.category != oldName
    {
      var i :| 0 <= i < |r.transactions| && r.transactions[i] == t;
    }
  }

  /** After renaming to a different name, the new name holds what both names held before. */
  lemma EditCategoryMerges(st: State, oldName: string, newName: string)
    requires oldName != newName && oldName in st.categories
    ensures var r := EditCategory(st, oldName, newName);
      newName in r.categoryIncomes
      && r.categoryIncomes[newName]
         == Total(OfCategory(st.transactions, oldName)) + Total(OfCategory(st.transactions, newName))
  {
    var r := EditCategory(st, oldName, newName);
    RenameMergesCategory(st.transactions, oldName, newName);
    var i :| 0 <= i < |st.categories| && st.categories[i] == oldName;
    assert r.categories[i] == newName;
  }

  /** Renaming to a name nobody uses and back restores both lists. */
  lemma EditCategoryRoundTrip(st: State, oldName: string, newName: string)
    requires newName !in st.categories
    requires forall t :: t in st.transactions ==> t.category != newName
    ensures var back := EditCategory(EditCategory(st, oldName, newName), newName, oldName);
      back.categories == st.categories && back.transactions == st.transactions
  {
    var once := EditCategory(st, oldName, newName);
    var back := EditCategory(once, newName, oldName);
    assert back.categories == st.categories by {
      forall i | 0 <= i < |st.categories|
        ensures back.categories[i] == st.categories[i]
      {
        assert st.categories[i] != newName;
      }
    }
    assert back.transactions == st.transactions by {
      forall i | 0 <= i < |st.transactions|
        ensures back.transactions[i] == st.transactions[i]
      {
        assert st.transactions[i] in st.transactions;
      }
    }
  }

  /** Deleting a category and adding the name again brings none of its transactions back. */
  lemma DeleteThenReAddIsEmpty(st: State, c: string)
    ensures var r := AddCategory(DeleteCategory(st, c), c);
      c in r.categories && r.categoryIncomes[c] == 0
      && forall t :: t in r.transactions ==> t.category != c
  {
    var d := DeleteCategory(st, c);
    OfCategoryAbsent(d.transactions, c);
  }

  /** `addCategory` never introduces a duplicate. */
  lemma AddCategoryKeepsDistinct(st: State, name: string)
    requires Distinct(st.categories)
    ensures Distinct(AddCategory(st, name).categories)
  {
  }

  /** The add-category dialog calls `updateCategories(categories + newCategory)` without the
      membership check, so an existing name is listed twice. */
  lemma DialogAddMayDuplicate(st: State, name: string)
    requires name in st.categories
    ensures !Distinct(UpdateCategories(st, st.categories + [name]).categories)
  {
    var cats := st.categories + [name];
    var i :| 0 <= i < |st.categories| && st.categories[i] == name;
    assert cats[i] == cats[|cats| - 1];
  }

  // ---------------------------------------------------------------- transactions

  /** `deleteTransaction(t)`: remove the first transaction equal to `t`, save and re-sort.
      The aggregates are not recomputed by this call. */
  function DeleteTransaction(st: State, t: Tx): (r: State)
    ensures t in st.transactions ==> |r.transactions| == |st.transactions| - 1
    ensures t !in st.transactions ==> r.transactions == st.transactions
    ensures multiset(r.transactions) == multiset(st.transactions) - multiset{t}
    ensures t in st.transactions ==> exists i :: (0 <= i < |st.transactions| && st.transactions[i] == t
      && t !in st.transactions[..i] && r.transactions == st.transactions[..i] + st.transactions[i + 1..])
    ensures r.prefs.transactions == Some(r.transactions)
    ensures r.categories == st.categories
    ensures r.categoryIncomes == st.categoryIncomes && r.totalIncome == st.totalIncome
    ensures Synced(st) ==> Synced(r)
    ensures r.sortType == st.sortType && SortedView(r, st.sortType)
    ensures r == st.(transactions := r.transactions, sorted := r.sorted,
                     prefs := st.prefs.(transactions := Some(r.transactions)))
  {
    var txs := RemoveFirst(st.transactions, t);
    RemoveFirstMultiset(st.transactions, t);
    RemoveFirstCutsSomeFirstOccurrence(st.transactions, t);
    SortTransactions(SaveTransactions(st, txs).(transactions := txs), st.sortType)
  }

  /** `updateTransaction(u)`: the first transaction with `u`'s id becomes `u`; with no such
      id the list stays as it was. Saved and re-sorted; the aggregates are not recomputed. */
  function UpdateTransaction(st: State, u: Tx): (r: State)
    ensures |r.transactions| == |st.transactions|
    ensures (forall j :: 0 <= j < |st.transactions| ==> st.transactions[j].id != u.id) ==>
      r.transactions == st.transactions
    ensures forall i :: 0 <= i < |st.transactions| && st.transactions[i].id == u.id
              && (forall j :: 0 <= j < i ==> st.transactions[j].id != u.id)
              ==> r.transactions == st.transactions[i := u]
    ensures r.prefs.transactions == Some(r.transactions)
    ensures r.categories == st.categories
    ensures r.categoryIncomes == st.categoryIncomes && r.totalIncome == st.totalIncome
    ensures Synced(st) ==> Synced(r)
    ensures r.sortType == st.sortType && SortedView(r, st.sortType)
    ensures r == st.(transactions := r.transactions, sorted := r.sorted,
                     prefs := st.prefs.(transactions := Some(r.transactions)))
  {
    var txs := ReplaceById(st.transactions, u);
    SortTransactions(SaveTransactions(st, txs).(transactions := txs), st.sortType)
  }

  /** `updateIncomeTransactions(t)`: append `t`, its date converted to the storage form by
      `formatDate`, to the list read back from the preference file; save, recompute, re-sort. */
  function AddTransaction(st: State, t: Tx, formatDate: string -> string): (r: State)
    ensures |r.transactions| == |StoredTransactions(st.prefs)| + 1
    ensures r.transactions[..|r.transactions| - 1] == StoredTransactions(st.prefs)
    ensures r.transactions[|r.transactions| - 1] == t.(date := formatDate(t.date))
    ensures Synced(st) ==> r.transactions == st.transactions + [t.(date := formatDate(t.date))]
    ensures r.totalIncome == Total(StoredTransactions(st.prefs)) + t.amount
    ensures r.categories == st.categories
    ensures Consistent(r) && (st.prefs.categories == Some(st.categories) ==> Synced(r))
    ensures r.sortType == st.sortType && SortedView(r, st.sortType) && r.filtered == st.filtered
    ensures r.prefs == st.prefs.(transactions := Some(r.transactions), incomes := Some(r.categoryIncomes))
  {
    var stored := StoredTransactions(st.prefs);
    var txs := stored + [t.(date := formatDate(t.date))];
    assert txs[..|txs| - 1] == stored;
    TotalAppend(stored, [t.(date := formatDate(t.date))]);
    SortTransactions(Recompute(SaveTransactions(st, txs).(transactions := txs)), st.sortType)
  }

  /** Deleting a transaction and letting the broadcast reload the ledger takes exactly that
      amount off the total. */
  lemma DeleteTransactionThenReload(st: State, t: Tx)
    requires t in st.transactions
    ensures var r := LoadDataIncome(DeleteTransaction(st, t));
      Consistent(r) && r.totalIncome == Total(st.transactions) - t.amount
  {
    TotalRemoveFirst(st.transactions, t);
  }

  /** Replacing a transaction and reloading moves the total by the difference in amount. */
  lemma UpdateTransactionThenReload(st: State, u: Tx)
    ensures var r := LoadDataIncome(UpdateTransaction(st, u));
      var i := IndexOfId(st.transactions, u.id);
      Consistent(r)
      && r.totalIncome == if i == -1 then Total(st.transactions)
                          else Total(st.transactions) - st.transactions[i].amount + u.amount
  {
    ReplaceByIdTotal(st.transactions, u);
  }

  /** Adding a transaction whose stored record is new and deleting it again restores the list. */
  lemma AddThenDeleteRestores(st: State, t: Tx, formatDate: string -> string)
    requires Synced(st)
    requires t.(date := formatDate(t.date)) !in st.transactions
    ensures DeleteTransaction(AddTransaction(st, t, formatDate), t.(date := formatDate(t.date))).transactions
            == st.transactions
  {
    RemoveFirstUndoesAppend(st.transactions, t.(date := formatDate(t.date)));
  }

  // ---------------------------------------------------------------- aggregates

  /** The per-category totals added up over the category list. */
  function SumIncomes(cats: seq<string>, incomes: map<string, int>): int
  {
    if |cats| == 0 then 0
    else (if cats[0] in incomes then incomes[cats[0]] else 0) + SumIncomes(cats[1..], incomes)
  }

  lemma {:induction false} SumIncomesIsCategorySum(st: State, cats: seq<string>)
    requires Consistent(st)
    requires forall c :: c in cats ==> c in st.categories
    ensures SumIncomes(cats, st.categoryIncomes) == CategorySum(cats, st.transactions)
    decreases |cats|
  {
    if |cats| > 0 {
      SumIncomesIsCategorySum(st, cats[1..]);
    }
  }

  /** The total equals the sum of the per-category totals when every transaction's
      category is listed and no name is listed twice. */
  lemma TotalIsSumOfCategoryIncomes(st: State)
    requires Consistent(st) && Distinct(st.categories)
    requires forall t :: t in st.transactions ==> t.category in st.categories
    ensures st.totalIncome == SumIncomes(st.categories, st.categoryIncomes)
  {
    SumIncomesIsCategorySum(st, st.categories);
    CategorySumIsTotal(st.categories, st.transactions);
  }

  /** Transactions filed under an unlisted name count towards the total but towards no
      category: the total is the per-category totals plus the unlisted amounts. */
  lemma UnlistedCategoryCountsOnlyInTotal(st: State)
    requires Consistent(st) && Distinct(st.categories)
    ensures st.totalIncome == SumIncomes(st.categories, st.categoryIncomes) + Total(Unlisted(st.transactions, st.categories))
  {
    SumIncomesIsCategorySum(st, st.categories);
    CategorySumPlusUnlisted(st.categories, st.transactions);
  }

  // ---------------------------------------------------------------- filters

  /** `filterByCategory(c)`: the transactions of category `c`, newest date text first. */
  function FilterByCategory(st: State, c: string): (r: State)
    ensures forall t :: t in r.filtered ==> t.category == c
    ensures forall t :: multiset(r.filtered)[t] == if t.category == c then multiset(st.transactions)[t] else 0
    ensures Sorted(DATE, r.filtered)
    ensures forall t :: KeyClass(DATE, r.filtered, t) == KeyClass(DATE, OfCategory(st.transactions, c), t)
    ensures r == st.(filtered := r.filtered)
  {
    var selected := OfCategory(st.transactions, c);
    assert forall t :: multiset(selected)[t] == if t.category == c then multiset(st.transactions)[t] else 0 by {
      forall t: Tx
        ensures multiset(selected)[t] == if t.category == c then multiset(st.transactions)[t] else 0
      {
        FilterCount(st.transactions, (t: Tx) => t.category == c, t);
      }
    }
    st.(filtered := SortBy(DATE, selected))
  }

  /** `transactionDate in startDate..endDate`, where the transaction's date is parsed
      from its text; an unparsable text is never in range. */
  predicate InPeriod(start: Date, end: Date, date: string)
  {
    match Parse(date)
    case None => false
    case Some(d) => CalendarLe(start, d) && CalendarLe(d, end)
  }

  /** For stored texts that parse, the calendar range check is the plain string range
      check against the bounds' storage texts. */
  lemma InPeriodAsText(start: Date, end: Date, date: string)
    requires Valid(start) && Valid(end) && Parse(date).Some?
    ensures InPeriod(start, end, date) <==> LexLe(Iso(start), date) && LexLe(date, Iso(end))
  {
    var d := Parse(date).value;
    IsoParse(date, d);
    IsoOrder(start, d);
    IsoOrder(d, end);
  }

  /** The first transaction whose date text does not parse, or -1. */
  function FirstUnparsable(s: seq<Tx>): (r: int)
    ensures -1 <= r < |s|
    ensures r == -1 <==> forall j :: 0 <= j < |s| ==> Parse(s[j].date).Some?
    ensures r >= 0 ==> Parse(s[r].date).None? && forall j :: 0 <= j < r ==> Parse(s[j].date).Some?
  {
    if |s| == 0 then -1
    else if Parse(s[0].date).None? then 0
    else
      var r := FirstUnparsable(s[1..]);
      if r == -1 then -1 else r + 1
  }

  /** Outcome of a period filter: `LocalDate.parse` throws on the first date text it cannot
      read, and then nothing is assigned. */
  datatype FilterResult = Filtered(state: State) | UnparsableDate(date: string)

  function InPeriodOfCategory(s: seq<Tx>, start: Date, end: Date, c: string): seq<Tx>
  {
    Filter(s, (t: Tx) => t.category == c && InPeriod(start, end, t.date))
  }

  function InPeriodAll(s: seq<Tx>, start: Date, end: Date): seq<Tx>
  {
    Filter(s, (t: Tx) => InPeriod(start, end, t.date))
  }

  /** `filterByPeriodForCategory(start, end, c)`: the transactions of category `c` dated in
      `[start, end]`, newest date text first, into `filteredTransactions`. */
  function FilterByPeriodForCategory(st: State, start: Date, end: Date, c: string): (r: FilterResult)
    ensures r.UnparsableDate? <==> exists t :: t in st.transactions && Parse(t.date).None?
    ensures r.UnparsableDate? ==> Parse(r.date).None? && exists t :: t in st.transactions && t.date == r.date
    ensures r.Filtered? ==>
      && r.state == st.(filtered := r.state.filtered)
      && (forall t :: t in r.state.filtered ==> t.category == c && InPeriod(start, end, t.date))
      && (forall t :: multiset(r.state.filtered)[t] ==
            if t.category == c && InPeriod(start, end, t.date) then multiset(st.transactions)[t] else 0)
      && Sorted(DATE, r.state.filtered)
      && (forall t :: KeyClass(DATE, r.state.filtered, t)
                      == KeyClass(DATE, InPeriodOfCategory(st.transactions, start, end, c), t))
  {
    var i := FirstUnparsable(st.transactions);
    if i >= 0 then
      assert st.transactions[i] in st.transactions;
      UnparsableDate(st.transactions[i].date)
    else
      var selected := InPeriodOfCategory(st.transactions, start, end, c);
      assert forall t: Tx :: multiset(selected)[t] == (if t.category == c && InPeriod(start, end, t.date)
                                                     then multiset(st.transactions)[t] else 0) by {
        forall t: Tx
          ensures multiset(selected)[t] ==
            if t.category == c && InPeriod(start, end, t.date) then multiset(st.transactions)[t] else 0
        {
          FilterCount(st.transactions, (t: Tx) => t.category == c && InPeriod(start, end, t.date), t);
        }
      }
      Filtered(st.(filtered := SortBy(DATE, selected)))
  }

  /** `filterByPeriodForAllTransactions(start, end)`: every transaction dated in
      `[start, end]`, newest date text first. It writes `sortedTransactions`, not
      `filteredTransactions`. */
  function FilterByPeriodForAllTransactions(st: State, start: Date, end: Date): (r: FilterResult)
    ensures r.UnparsableDate? <==> exists t :: t in st.transactions && Parse(t.date).None?
    ensures r.UnparsableDate? ==> Parse(r.date).None? && exists t :: t in st.transactions && t.date == r.date
    ensures r.Filtered? ==>
      && r.state == st.(sorted := r.state.sorted)
      && (forall t :: t in r.state.sorted ==> InPeriod(start, end, t.date))
      && (forall t :: multiset(r.state.sorted)[t] ==
            if InPeriod(start, end, t.date) then multiset(st.transactions)[t] else 0)
      && Sorted(DATE, r.state.sorted)
      && (forall t :: KeyClass(DATE, r.state.sorted, t) == KeyClass(DATE, InPeriodAll(st.transactions, start, end), t))
  {
    var i := FirstUnparsable(st.transactions);
    if i >= 0 then
      assert st.transactions[i] in st.transactions;
      UnparsableDate(st.transactions[i].date)
    else
      var selected := InPeriodAll(st.transactions, start, end);
      assert forall t: Tx :: multiset(selected)[t] == (if InPeriod(start, end, t.date)
                                                     then multiset(st.transactions)[t] else 0) by {
        forall t: Tx
          ensures multiset(selected)[t] == if InPeriod(start, end, t.date) then multiset(st.transactions)[t] else 0
        {
          FilterCount(st.transactions, (t: Tx) => InPeriod(start, end, t.date), t);
        }
      }
      Filtered(st.(sorted := SortBy(DATE, selected)))
  }

  /** A list in date-text order whose dates all parse is in calendar order, newest first. */
  lemma DateOrderIsCalendarOrder(s: seq<Tx>)
    requires Sorted(DATE, s)
    requires forall t :: t in s ==> Parse(t.date).Some?
    ensures forall i, j :: 0 <= i < j < |s| ==> CalendarLe(Parse(s[j].date).value, Parse(s[i].date).value)
  {
    forall i, j | 0 <= i < j < |s|
      ensures CalendarLe(Parse(s[j].date).value, Parse(s[i].date).value)
    {
      assert s[i] in s && s[j] in s;
      var di, dj := Parse(s[i].date).value, Parse(s[j].date).value;
      IsoParse(s[i].date, di);
      IsoParse(s[j].date, dj);
      IsoOrder(dj, di);
    }
  }

  /** The period filters list their results newest first on the calendar. */
  lemma PeriodFilterIsCalendarDescending(st: State, start: Date, end: Date, c: string)
    ensures var r := FilterByPeriodForCategory(st, start, end, c);
      r.Filtered? ==> forall i, j :: 0 <= i < j < |r.state.filtered| ==>
        CalendarLe(Parse(r.state.filtered[j].date).value, Parse(r.state.filtered[i].date).value)
  {
    var r := FilterByPeriodForCategory(st, start, end, c);
    if r.Filtered? {
      DateOrderIsCalendarOrder(r.state.filtered);
    }
  }

  /** The all-transactions period filter also lists its result newest first on the calendar. */
  lemma PeriodFilterAllIsCalendarDescending(st: State, start: Date, end: Date)
    ensures var r := FilterByPeriodForAllTransactions(st, start, end);
      r.Filtered? ==> forall i, j :: 0 <= i < j < |r.state.sorted| ==>
        CalendarLe(Parse(r.state.sorted[j].date).value, Parse(r.state.sorted[i].date).value)
  {
    var r := FilterByPeriodForAllTransactions(st, start, end);
    if r.Filtered? {
      DateOrderIsCalendarOrder(r.state.sorted);
    }
  }
}
