/** What `IncomeActivity` does to the ledger when it starts: load the stored per-category
    totals, load (or seed) the category list, and re-seed the defaults when the shipped
    default list has changed since the hash was last stored. */
module IncomeActivity {
  import opened Maybe
  import opened Ledger
  import opened IncomeViewModel
  import StandardCategories

  /** The hash of the default income categories this build ships. */
  function DefaultsHash(): (h: string)
    ensures |h| > 0
  {
    StandardCategories.CategoriesHash(StandardCategories.IncomeCategories())
  }

  /** `updateCategoriesIfNeeded()`: when the stored "categories_hash" (read as "" if absent)
      differs from the shipped defaults' hash, overwrite the category list with the defaults,
      store the hash, and hand the defaults to the view model. Custom categories are lost. */
  function UpdateCategoriesIfNeeded(st: State): (r: State)
    ensures r.prefs.categoriesHash == Some(DefaultsHash())
    ensures st.prefs.categoriesHash == Some(DefaultsHash()) ==> r == st
    ensures st.prefs.categoriesHash != Some(DefaultsHash()) ==>
      && r.categories == StandardCategories.IncomeCategories()
      && r.prefs.categories == Some(r.categories)
      && r.transactions == st.transactions
      && Consistent(r)
      && (Synced(st) ==> Synced(r))
      && r == st.(categories := r.categories, categoryIncomes := r.categoryIncomes, totalIncome := r.totalIncome,
                  prefs := st.prefs.(categories := Some(r.categories), categoriesHash := Some(DefaultsHash()),
                                     incomes := Some(r.categoryIncomes)))
  {
    var current := DefaultsHash();
    var saved := st.prefs.categoriesHash.GetOr("");
    assert current == saved ==> st.prefs.categoriesHash == Some(current) by {
      if st.prefs.categoriesHash.None? {
        assert saved == "" && |current| > 0;
      }
    }
    if current != saved then
      var defaults := StandardCategories.IncomeCategories();
      var stored := st.(prefs := st.prefs.(categories := Some(defaults), categoriesHash := Some(current)));
      UpdateCategories(stored, defaults)
    else st
  }

  /** Checking twice re-seeds at most once. */
  lemma UpdateCategoriesIfNeededIdempotent(st: State)
    ensures UpdateCategoriesIfNeeded(UpdateCategoriesIfNeeded(st)) == UpdateCategoriesIfNeeded(st)
  {
  }

  /** A first run (no stored hash) always seeds the defaults. */
  lemma FirstRunSeedsDefaults(st: State)
    requires st.prefs.categoriesHash.None?
    ensures UpdateCategoriesIfNeeded(st).categories == StandardCategories.IncomeCategories()
  {
  }

  /** `loadIncomesFromSharedPreferences()`: read the stored "incomes" map (empty if absent)
      and pass it to `updateIncomes`. The view model is built lazily on that first use, so the
      map is read before construction rewrites "incomes". */
  function LoadIncomesFromPrefs(p: Prefs): (r: State)
    ensures p.incomes.Some? && |p.incomes.value| > 0 ==> r.categoryIncomes == p.incomes.value
    ensures p.incomes.None? || |p.incomes.value| == 0 ==> Consistent(r)
    ensures r.prefs.incomes == Some(r.categoryIncomes)
    ensures r.totalIncome == Total(r.transactions)
    ensures r.transactions == StoredTransactions(p)
    ensures r.categories == p.categories.GetOr(StandardCategories.IncomeCategories())
    ensures Synced(r) && r.prefs.categoriesHash == p.categoriesHash
    ensures r.sortType == DATE && SortedView(r, DATE) && r.filtered == []
  {
    var stored := p.incomes.GetOr(map[]);
    var vm := Create(p);
    UpdateIncomes(vm, stored)
  }

  /** `loadCategoriesFromSharedPreferences()`: the stored list, or the defaults (saved first)
      when none is stored, handed to `updateCategories`. */
  function LoadCategoriesFromPrefs(st: State): (r: State)
    ensures r.categories == st.prefs.categories.GetOr(StandardCategories.IncomeCategories())
    ensures r.prefs.categories == Some(r.categories)
    ensures r.transactions == st.transactions
    ensures r.prefs.transactions == st.prefs.transactions
    ensures r.prefs.categoriesHash == st.prefs.categoriesHash
    ensures r.prefs.incomes == Some(r.categoryIncomes)
    ensures Consistent(r)
    ensures r == st.(categories := r.categories, categoryIncomes := r.categoryIncomes, totalIncome := r.totalIncome,
                     prefs := st.prefs.(categories := Some(r.categories), incomes := Some(r.categoryIncomes)))
  {
    var cats := st.prefs.categories.GetOr(StandardCategories.IncomeCategories());
    UpdateCategories(st.(prefs := st.prefs.(categories := Some(cats))), cats)
  }

  /** `onCreate`: load the stored totals (building the view model, which loads the ledger),
      then load the categories and check the defaults' hash. */
  function OnCreate(p: Prefs): (r: State)
    ensures Consistent(r) && Synced(r)
    ensures r.prefs.categoriesHash == Some(DefaultsHash())
    ensures r.prefs.incomes == Some(r.categoryIncomes)
    ensures r.sortType == DATE && SortedView(r, DATE) && r.filtered == []
    ensures r.transactions == StoredTransactions(p)
    ensures p.categoriesHash == Some(DefaultsHash()) ==>
      r.categories == p.categories.GetOr(StandardCategories.IncomeCategories())
    ensures p.categoriesHash != Some(DefaultsHash()) ==> r.categories == StandardCategories.IncomeCategories()
  {
    var withIncomes := LoadIncomesFromPrefs(p);
    var withCategories := LoadCategoriesFromPrefs(withIncomes);
    UpdateCategoriesIfNeeded(withCategories)
  }

  /** A stored non-empty "incomes" map is taken as the per-category totals only until the
      category list is loaded: after start-up the totals are recomputed from the transactions,
      a stored entry for an unlisted name is gone, and the file holds the recomputed map. */
  lemma StoredIncomesDoNotSurviveStartup(p: Prefs)
    requires p.incomes.Some? && |p.incomes.value| > 0
    ensures LoadIncomesFromPrefs(p).categoryIncomes == p.incomes.value
    ensures var r := OnCreate(p);
      && (forall c :: c in r.categories ==> r.categoryIncomes[c] == Total(OfCategory(r.transactions, c)))
      && (forall c :: c in p.incomes.value && c !in r.categories ==> c !in r.categoryIncomes)
      && r.prefs.incomes == Some(r.categoryIncomes)
  {
  }
}
