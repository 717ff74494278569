/** Income transactions and the list operations the view model applies to them:
    per-category sums, the stable sorts behind `sortTransactions`, and
    replace-by-id. */
module Ledger {
  import opened Maybe
  import opened Seqs
  import opened Text

  /** `IncomeTransaction`. The amount is a whole number of minor units; the date is the
      stored text, normally "yyyy-MM-dd". */
  datatype Tx = Tx(id: string, category: string, amount: int, date: string, comments: Option<string>)

  /** The three orders the income list can be shown in. */
  datatype SortType = DATE | AMOUNT | CATEGORY

  // ---------------------------------------------------------------- sums

  /** `sumOf { it.amount }`. */
  function Total(s: seq<Tx>): int
  {
    if |s| == 0 then 0 else s[0].amount + Total(s[1..])
  }

  /** `filter { it.category == c }`. */
  function OfCategory(s: seq<Tx>, c: string): seq<Tx>
  {
    Filter(s, (t: Tx) => t.category == c)
  }

  /** `filter { it.category != c }`: every transaction of another category survives,
      in its original order, and none of category `c` does. */
  function NotOfCategory(s: seq<Tx>, c: string): (r: seq<Tx>)
    ensures forall t :: t in r ==> t.category != c
    ensures forall t: Tx :: t.category != c ==> multiset(r)[t] == multiset(s)[t]
    ensures IsSubsequence(r, s)
  {
    var p := (t: Tx) => t.category != c;
    var r := Filter(s, p);
    assert forall t: Tx :: t.category != c ==> multiset(r)[t] == multiset(s)[t] by {
      forall t: Tx | t.category != c
        ensures multiset(r)[t] == multiset(s)[t]
      {
        FilterCount(s, p, t);
      }
    }
    FilterSubsequence(s, p);
    r
  }

  lemma {:induction false} TotalAppend(a: seq<Tx>, b: seq<Tx>)
    ensures Total(a + b) == Total(a) + Total(b)
    decreases |a|
  {
    if |a| == 0 {
      assert a + b == b;
    } else {
      assert (a + b)[1..] == a[1..] + b;
      TotalAppend(a[1..], b);
    }
  }

  /** Every amount is counted once: either under `c` or under some other category. */
  lemma {:induction false} TotalSplitsOnCategory(s: seq<Tx>, c: string)
    ensures Total(s) == Total(OfCategory(s, c)) + Total(NotOfCategory(s, c))
    decreases |s|
  {
    if |s| > 0 {
      TotalSplitsOnCategory(s[1..], c);
      var ofRest, notRest := OfCategory(s[1..], c), NotOfCategory(s[1..], c);
      if s[0].category == c {
        assert OfCategory(s, c) == [s[0]] + ofRest;
        assert NotOfCategory(s, c) == notRest;
        TotalAppend([s[0]], ofRest);
      } else {
        assert OfCategory(s, c) == ofRest;
        assert NotOfCategory(s, c) == [s[0]] + notRest;
        TotalAppend([s[0]], notRest);
      }
    }
  }

  /** The per-category totals of `s` added up over the category list `cats`. */
  function CategorySum(cats: seq<string>, s: seq<Tx>): int
  {
    if |cats| == 0 then 0 else Total(OfCategory(s, cats[0])) + CategorySum(cats[1..], s)
  }

  /** One more transaction adds its amount to the category sum once if its category is
      listed (and the list has no duplicates), and not at all otherwise. */
  lemma {:induction false} CategorySumCons(cats: seq<string>, t: Tx, s: seq<Tx>)
    requires Distinct(cats)
    ensures CategorySum(cats, [t] + s) == CategorySum(cats, s) + (if t.category in cats then t.amount else 0)
    decreases |cats|
  {
    if |cats| > 0 {
      var rest := cats[1..];
      assert Distinct(rest);
      CategorySumCons(rest, t, s);
      assert ([t] + s)[1..] == s;
      if t.category == cats[0] {
        assert t.category !in rest;
        assert OfCategory([t] + s, cats[0]) == [t] + OfCategory(s, cats[0]);
        TotalAppend([t], OfCategory(s, cats[0]));
      } else {
        assert OfCategory([t] + s, cats[0]) == OfCategory(s, cats[0]);
      }
    }
  }

  /** When every transaction's category is listed exactly once, the per-category totals
      add up to the grand total. */
  lemma {:induction false} CategorySumIsTotal(cats: seq<string>, s: seq<Tx>)
    requires Distinct(cats)
    requires forall t :: t in s ==> t.category in cats
    ensures CategorySum(cats, s) == Total(s)
    decreases |s|
  {
    if |s| == 0 {
      CategorySumEmpty(cats);
    } else {
      assert s == [s[0]] + s[1..];
      CategorySumCons(cats, s[0], s[1..]);
      CategorySumIsTotal(cats, s[1..]);
    }
  }

  lemma {:induction false} CategorySumEmpty(cats: seq<string>)
    ensures CategorySum(cats, []) == 0
    decreases |cats|
  {
    if |cats| > 0 {
      CategorySumEmpty(cats[1..]);
    }
  }

  /** The transactions filed under a name the list does not hold. */
  function Unlisted(s: seq<Tx>, cats: seq<string>): seq<Tx>
  {
    Filter(s, (t: Tx) => t.category !in cats)
  }

  /** Over a duplicate-free category list, every amount is counted once: either in its
      listed category's sum or among the unlisted transactions. */
  lemma {:induction false} CategorySumPlusUnlisted(cats: seq<string>, s: seq<Tx>)
    requires Distinct(cats)
    ensures Total(s) == CategorySum(cats, s) + Total(Unlisted(s, cats))
    decreases |s|
  {
    if |s| == 0 {
      CategorySumEmpty(cats);
    } else {
      assert s == [s[0]] + s[1..];
      CategorySumCons(cats, s[0], s[1..]);
      CategorySumPlusUnlisted(cats, s[1..]);
      if s[0].category !in cats {
        assert Unlisted(s, cats) == [s[0]] + Unlisted(s[1..], cats);
        TotalAppend([s[0]], Unlisted(s[1..], cats));
      } else {
        assert Unlisted(s, cats) == Unlisted(s[1..], cats);
      }
    }
  }

  // ---------------------------------------------------------------- sorting

  /** Whether `a` may come before `b` in the order `k` selects: dates descending and
      amounts descending (`sortedByDescending`), categories ascending (`sortedBy`). */
  predicate Precedes(k: SortType, a: Tx, b: Tx)
  {
    match k
    case DATE => LexLe(b.date, a.date)
    case AMOUNT => b.amount <= a.amount
    case CATEGORY => LexLe(a.category, b.category)
  }

  /** `a` and `b` have the same sort key under `k`. */
  predicate SameKey(k: SortType, a: Tx, b: Tx)
  {
    match k
    case DATE => a.date == b.date
    case AMOUNT => a.amount == b.amount
    case CATEGORY => a.category == b.category
  }

  lemma PrecedesTotal(k: SortType, a: Tx, b: Tx)
    ensures Precedes(k, a, b) || Precedes(k, b, a)
  {
    match k
    case DATE => LexLeTotal(a.date, b.date);
    case AMOUNT =>
    case CATEGORY => LexLeTotal(a.category, b.category);
  }

  lemma PrecedesTransitive(k: SortType, a: Tx, b: Tx, c: Tx)
    requires Precedes(k, a, b) && Precedes(k, b, c)
    ensures Precedes(k, a, c)
  {
    match k
    case DATE => LexLeTransitive(c.date, b.date, a.date);
    case AMOUNT =>
    case CATEGORY => LexLeTransitive(a.category, b.category, c.category);
  }

  /** Equal keys may stand in either order. */
  lemma SameKeyPrecedes(k: SortType, a: Tx, b: Tx)
    requires SameKey(k, a, b)
    ensures Precedes(k, a, b) && Precedes(k, b, a)
  {
    match k
    case DATE => LexLeReflexive(a.date);
    case AMOUNT =>
    case CATEGORY => LexLeReflexive(a.category);
  }

  /** Two transactions may stand in either order exactly when their keys are equal, so the
      key classes are the ties of the order. */
  lemma TiesAreSameKey(k: SortType, a: Tx, b: Tx)
    ensures Precedes(k, a, b) && Precedes(k, b, a) <==> SameKey(k, a, b)
  {
    match k
    case DATE =>
      LexLeReflexive(a.date);
      if LexLe(a.date, b.date) && LexLe(b.date, a.date) { LexLeAntisymmetric(a.date, b.date); }
    case AMOUNT =>
    case CATEGORY =>
      LexLeReflexive(a.category);
      if LexLe(a.category, b.category) && LexLe(b.category, a.category) { LexLeAntisymmetric(a.category, b.category); }
  }

  /** Each element may come before every later element. */
  predicate Sorted(k: SortType, s: seq<Tx>)
  {
    forall i, j :: 0 <= i < j < |s| ==> Precedes(k, s[i], s[j])
  }

  /** The elements of `s` with the same key as `t`, in order: a sort is stable when it
      keeps every such class in its original order. */
  function KeyClass(k: SortType, s: seq<Tx>, t: Tx): seq<Tx>
  {
    Filter(s, (y: Tx) => SameKey(k, y, t))
  }

  /** Insert `x` in front of the first element it may precede. */
  function Insert(k: SortType, x: Tx, s: seq<Tx>): (r: seq<Tx>)
    ensures multiset(r) == multiset(s) + multiset{x}
  {
    if |s| == 0 then [x]
    else if Precedes(k, x, s[0]) then [x] + s
    else
      assert s == [s[0]] + s[1..];
      [s[0]] + Insert(k, x, s[1..])
  }

  lemma {:induction false} InsertSorted(k: SortType, x: Tx, s: seq<Tx>)
    requires Sorted(k, s)
    ensures Sorted(k, Insert(k, x, s))
    decreases |s|
  {
    if |s| == 0 {
    } else if Precedes(k, x, s[0]) {
      var r := [x] + s;
      forall i, j | 0 <= i < j < |r|
        ensures Precedes(k, r[i], r[j])
      {
        if i == 0 && j > 1 {
          PrecedesTransitive(k, x, s[0], s[j - 1]);
        }
      }
    } else {
      PrecedesTotal(k, x, s[0]);
      InsertSorted(k, x, s[1..]);
      var r := Insert(k, x, s);
      var tail := Insert(k, x, s[1..]);
      assert r == [s[0]] + tail;
      forall i, j | 0 <= i < j < |r|
        ensures Precedes(k, r[i], r[j])
      {
        if i == 0 {
          assert r[j] == tail[j - 1];
          assert r[j] in multiset(tail);
          if r[j] != x {
            assert r[j] in multiset(s[1..]);
            var m :| 0 <= m < |s[1..]| && s[1..][m] == r[j];
            assert s[m + 1] == r[j];
          }
        } else {
          assert r[i] == tail[i - 1] && r[j] == tail[j - 1];
        }
      }
    }
  }

  /** Inserting `x` adds it to its own key class, at the front, and leaves every other
      class as it was. */
  lemma {:induction false} InsertKeyClass(k: SortType, x: Tx, s: seq<Tx>, t: Tx)
    ensures KeyClass(k, Insert(k, x, s), t) == (if SameKey(k, x, t) then [x] else []) + KeyClass(k, s, t)
    decreases |s|
  {
    if |s| == 0 {
    } else if Precedes(k, x, s[0]) {
      assert ([x] + s)[1..] == s;
    } else {
      InsertKeyClass(k, x, s[1..], t);
      var tail := Insert(k, x, s[1..]);
      assert ([s[0]] + tail)[1..] == tail;
      if SameKey(k, x, t) && SameKey(k, s[0], t) {
        SameKeyTransitive(k, x, t, s[0]);
        SameKeyPrecedes(k, x, s[0]);
      }
    }
  }

  lemma SameKeyTransitive(k: SortType, a: Tx, b: Tx, c: Tx)
    requires SameKey(k, a, b) && SameKey(k, c, b)
    ensures SameKey(k, a, c)
  {
  }

  /** Kotlin's `sortedBy` / `sortedByDescending` for the key `k`: a stable sort. */
  function SortBy(k: SortType, s: seq<Tx>): (r: seq<Tx>)
    ensures multiset(r) == multiset(s)
    ensures Sorted(k, r)
    ensures forall t :: KeyClass(k, r, t) == KeyClass(k, s, t)
  {
    if |s| == 0 then []
    else
      var rest := SortBy(k, s[1..]);
      InsertSorted(k, s[0], rest);
      assert s == [s[0]] + s[1..];
      var r := Insert(k, s[0], rest);
      assert forall t :: KeyClass(k, r, t) == KeyClass(k, s, t) by {
        forall t
          ensures KeyClass(k, r, t) == KeyClass(k, s, t)
        {
          InsertKeyClass(k, s[0], rest, t);
        }
      }
      r
  }

  // ---------------------------------------------------------------- replace by id

  /** `indexOfFirst { it.id == id }`: the first index holding that id, or -1. */
  function IndexOfId(s: seq<Tx>, id: string): (r: int)
    ensures -1 <= r < |s|
    ensures r == -1 <==> forall j :: 0 <= j < |s| ==> s[j].id != id
    ensures r >= 0 ==> s[r].id == id && forall j :: 0 <= j < r ==> s[j].id != id
  {
    if |s| == 0 then -1
    else if s[0].id == id then 0
    else
      var r := IndexOfId(s[1..], id);
      if r == -1 then -1 else r + 1
  }

  /** `updateTransaction`'s list step: the first transaction with `u`'s id becomes `u`. */
  function ReplaceById(s: seq<Tx>, u: Tx): (r: seq<Tx>)
    ensures |r| == |s|
    ensures (forall j :: 0 <= j < |s| ==> s[j].id != u.id) ==> r == s
    ensures forall i :: 0 <= i < |s| && s[i].id == u.id && (forall j :: 0 <= j < i ==> s[j].id != u.id)
              ==> r == s[i := u]
  {
    var i := IndexOfId(s, u.id);
    if i == -1 then s else s[i := u]
  }

  /** Replacing again with the same record changes nothing more. */
  lemma ReplaceByIdIdempotent(s: seq<Tx>, u: Tx)
    ensures ReplaceById(ReplaceById(s, u), u) == ReplaceById(s, u)
  {
    var i := IndexOfId(s, u.id);
    if i != -1 {
      var r := s[i := u];
      assert forall j :: 0 <= j < i ==> r[j].id != u.id;
      var m := IndexOfId(r, u.id);
      assert r[i].id == u.id;
      assert m != -1;
      assert !(m < i) && !(i < m);
      assert r[i := u] == r;
    }
  }

  /** Overwriting one element moves the total by the difference of the two amounts. */
  lemma {:induction false} TotalUpdate(s: seq<Tx>, i: nat, u: Tx)
    requires i < |s|
    ensures Total(s[i := u]) == Total(s) - s[i].amount + u.amount
    decreases |s|
  {
    if i > 0 {
      assert s[i := u][1..] == s[1..][i - 1 := u];
      TotalUpdate(s[1..], i - 1, u);
    }
  }

  /** The total moves by the difference between the new amount and the replaced one. */
  lemma ReplaceByIdTotal(s: seq<Tx>, u: Tx)
    ensures var i := IndexOfId(s, u.id);
      Total(ReplaceById(s, u)) == if i == -1 then Total(s) else Total(s) - s[i].amount + u.amount
  {
    var i := IndexOfId(s, u.id);
    if i != -1 {
      TotalUpdate(s, i, u);
    }
  }

  /** Removing one occurrence of `t` takes exactly its amount off the total. */
  lemma TotalRemoveFirst(s: seq<Tx>, t: Tx)
    requires t in s
    ensures Total(RemoveFirst(s, t)) == Total(s) - t.amount
  {
    var i := RemoveFirstCutsFirstOccurrence(s, t);
    assert s == s[..i] + [t] + s[i + 1..];
    TotalAppend(s[..i] + [t], s[i + 1..]);
    TotalAppend(s[..i], [t]);
    TotalAppend(s[..i], s[i + 1..]);
  }

  /** A list with no transaction of category `c` has nothing under `c`. */
  lemma {:induction false} OfCategoryAbsent(s: seq<Tx>, c: string)
    requires forall t :: t in s ==> t.category != c
    ensures OfCategory(s, c) == []
    decreases |s|
  {
    if |s| > 0 {
      OfCategoryAbsent(s[1..], c);
    }
  }
}
