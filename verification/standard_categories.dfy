/** The default category lists shipped with the app and the hash that detects
    when the shipped income defaults change between versions. */
module StandardCategories {
  import opened Maybe
  import opened Seqs
  import opened Text
  import opened Digits
  import opened JavaHash

  /** The default expense categories, in display order. */
  function ExpenseCategories(): (r: seq<string>)
    ensures |r| == 13 && Distinct(r)
  {
    [ "Аренда", "Комунальні послуги", "Транспорт", "Розваги", "Бакалія", "Одяг",
      "Здоров'я", "Освіта", "Подарунки", "Хоббі", "Благпппподійність", "Спорт",
      "Електроніка" ]
  }

  /** The default income categories, in display order. */
  function IncomeCategories(): (r: seq<string>)
    ensures |r| == 4 && Distinct(r)
  {
    [ "Заіірплата", "Бонуси", "Подарунки", "Пасивний дохід" ]
  }

  /** The two default lists share exactly one name. */
  lemma DefaultsShareOneName()
    ensures forall c :: c in IncomeCategories() && c in ExpenseCategories() <==> c == "Подарунки"
  {
  }

  /** `categories.joinToString().hashCode().toString()`: the decimal text of the
      Java hash of the ", "-joined list. */
  function CategoriesHash(categories: seq<string>): (r: string)
    ensures |r| > 0
    ensures ParseInt(r) == Some(HashCode(Join(categories)))
  {
    IntToStringRoundTrip(HashCode(Join(categories)));
    IntToString(HashCode(Join(categories)))
  }

  /** Two lists get the same hash text exactly when their joined texts have the same Java hash. */
  lemma CategoriesHashEqual(a: seq<string>, b: seq<string>)
    ensures CategoriesHash(a) == CategoriesHash(b) <==> HashCode(Join(a)) == HashCode(Join(b))
  {
    IntToStringRoundTrip(HashCode(Join(a)));
    IntToStringRoundTrip(HashCode(Join(b)));
  }

  /** The hash sees only the joined text, so a name containing ", " collides with the
      two names around it: different lists, same hash. */
  lemma CategoriesHashCollision(a: string, b: string)
    ensures [a + ", " + b] != [a, b]
    ensures CategoriesHash([a + ", " + b]) == CategoriesHash([a, b])
  {
    JoinCollides(a, b);
  }
}
